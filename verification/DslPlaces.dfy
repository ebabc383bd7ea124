/** Every text of a migrated DSL (agent/dsl_migration.py): where the values are that may refer to
    components, and what becomes of them. */
module DslPlaces {
  import opened References
  import opened DslMigration
  import opened DslGraph
  import opened Wrappers

  // ---------------------------------------------------------------- inside a value

  datatype Step = Key(key: string) | Item(index: nat)

  function At(v: Json, route: seq<Step>): Option<Json>
    decreases |route|
  {
    if route == [] then Some(v)
    else match route[0]
      case Key(k) =>
        if !v.Obj? then None
        else (match Get(v.fields, k) case Some(w) => At(w, route[1..]) case None => None)
      case Item(i) =>
        if v.Arr? && i < |v.items| then At(v.items[i], route[1..]) else None
  }

  lemma AtKey(v: Json, key: string, rest: seq<Step>)
    ensures At(v, [Key(key)] + rest) ==
            if !v.Obj? then None else match Get(v.fields, key) case Some(w) => At(w, rest) case None => None
  {
    assert ([Key(key)] + rest)[1..] == rest;
  }

  lemma AtItem(v: Json, i: nat, rest: seq<Step>)
    ensures At(v, [Item(i)] + rest) == if v.Arr? && i < |v.items| then At(v.items[i], rest) else None
  {
    assert ([Item(i)] + rest)[1..] == rest;
  }

  function Rewrite(ids: Ids, v: Option<Json>): Option<Json> {
    match v
    case Some(w) => Some(RewriteValue(ids, w))
    case None => None
  }

  /** Rewriting a value rewrites everything in it at its own place. */
  lemma {:induction false} AtRewritten(ids: Ids, v: Json, route: seq<Step>)
    ensures At(RewriteValue(ids, v), route) == Rewrite(ids, At(v, route))
    decreases |route|
  {
    if route != [] {
      var rest := route[1..];
      match route[0]
      case Key(k) =>
        if v.Obj? {
          RewriteGet(ids, v.fields, k);
          if Get(v.fields, k).Some? { AtRewritten(ids, Get(v.fields, k).value, rest); }
        }
      case Item(i) =>
        if v.Arr? && i < |v.items| { AtRewritten(ids, v.items[i], rest); }
    }
  }

  // ---------------------------------------------------------------- places of a DSL

  /** Where texts may refer to components: a parameter of a component, the conversation state,
      and the form of a drawn node. */
  datatype Place =
    | Param(component: string, name: string, rest: seq<Step>)
    | State(key: string, rest: seq<Step>)
    | Form(node: nat, rest: seq<Step>)

  predicate Valid(p: Place) {
    match p
    case Param(_, name, _) => name != "component_name"
    case State(key, _) => key == "history" || key == "messages" || key == "reference"
    case Form(_, _) => true
  }

  /** What stands at a place. */
  function Content(dsl: Json, p: Place): Option<Json> {
    match p
    case Param(c, name, rest) => At(dsl, [Key("components")] + ([Key(c)] + ([Key("obj")] + ([Key(name)] + rest))))
    case State(key, rest) => At(dsl, [Key(key)] + rest)
    case Form(n, rest) => At(dsl, [Key("graph")] + ([Key("nodes")] + ([Item(n)] + ([Key("data")] + ([Key("form")] + rest)))))
  }

  /** The same place in the migrated DSL. */
  function Moved(p: Place): Place {
    if p.Param? then p.(component := Rename(p.component)) else p
  }

  ghost predicate Ready(dsl: Json) {
    HasComponents(dsl) && Normalize(dsl).Done? && Distinct(Components(dsl)) && NoCollision(Components(dsl))
  }

  // ---------------------------------------------------------------- parameters

  lemma ParamContent(dsl: Json, c: string, name: string, rest: seq<Step>)
    requires HasComponents(dsl)
    ensures Content(dsl, Param(c, name, rest)) ==
            match Get(Components(dsl), c)
            case Some(Obj(fs)) => (match Get(fs, "obj") case Some(o) => At(o, [Key(name)] + rest) case None => None)
            case _ => None
  {
    var a := [Key(name)] + rest;
    var b := [Key("obj")] + a;
    AtKey(dsl, "components", [Key(c)] + b);
    AtKey(Obj(Components(dsl)), c, b);
    match Get(Components(dsl), c)
    case Some(v) => AtKey(v, "obj", a);
    case None =>
  }

  lemma ParamRewritten(dsl: Json, p: Place)
    requires Ready(dsl) && Valid(p) && p.Param? && Content(dsl, p).Some?
    ensures Content(Normalize(dsl).value, Moved(p)) == Rewrite(IdMap(Components(dsl)), Content(dsl, p))
  {
    var components, out := Components(dsl), Normalize(dsl).value;
    var ids := IdMap(components);
    NormalizeParts(dsl);
    ParamContent(dsl, p.component, p.name, p.rest);
    ParamContent(out, Rename(p.component), p.name, p.rest);
    IsKeyGet(components, p.component);
    ComponentFound(Rewriter(ids), ids, components, p.component);
    ObjParam(ids, Get(components, p.component).value, p.name, p.rest);
  }

  lemma ObjParam(ids: Ids, component: Json, name: string, rest: seq<Step>)
    requires RewriteComponent(ids, component).Done? && component.Obj? && Get(component.fields, "obj").Some? && name != "component_name"
    requires At(Get(component.fields, "obj").value, [Key(name)] + rest).Some?
    ensures var out := RewriteComponent(ids, component).value;
            && out.Obj? && Get(out.fields, "obj").Some?
            && At(Get(out.fields, "obj").value, [Key(name)] + rest) ==
               Rewrite(ids, At(Get(component.fields, "obj").value, [Key(name)] + rest))
  {
    var v := Get(component.fields, "obj").value;
    AtKey(v, name, rest);
    ObjRewritten(ids, component, v.fields, name);
    var w := Get(RewriteComponent(ids, component).value.fields, "obj").value;
    RewriteGet(ids, v.fields, name);
    AtKey(w, name, rest);
    AtRewritten(ids, Get(v.fields, name).value, rest);
  }

  // ---------------------------------------------------------------- conversation state

  lemma FormAt(ids: Ids, fs: seq<Field>, key: string)
    ensures Get(RewriteForm(ids, fs, key), key) == Rewrite(ids, Get(fs, key))
  {
    match Get(fs, key)
    case Some(v) => PutGet(fs, key, RewriteValue(ids, v), key);
    case None =>
  }

  lemma FormsAt(ids: Ids, fs: seq<Field>, key: string)
    requires key == "history" || key == "messages" || key == "reference"
    ensures Get(Forms(ids, fs), key) == Rewrite(ids, Get(fs, key))
  {
    var a := RewriteForm(ids, fs, "history");
    var b := RewriteForm(ids, a, "messages");
    FormAt(ids, fs, "history");
    FormAt(ids, a, "messages");
    FormAt(ids, b, "reference");
    RewriteFormMakes(ids, fs, "history");
    RewriteFormMakes(ids, a, "messages");
    RewriteFormMakes(ids, b, "reference");
    if key != "history" { Through(fs, a, "history", key); }
    if key != "messages" { Through(a, b, "messages", key); }
    if key != "reference" { Through(b, RewriteForm(ids, b, "reference"), "reference", key); }
  }

  lemma StateRewritten(dsl: Json, p: Place)
    requires HasComponents(dsl) && Normalize(dsl).Done? && Valid(p) && p.State?
    ensures Content(Normalize(dsl).value, p) == Rewrite(IdMap(Components(dsl)), Content(dsl, p))
  {
    var ids, sorted := IdMap(Components(dsl)), ByLength(Components(dsl));
    var rewritten := Obj(RewriteComponents(ids, Components(dsl)).value);
    var top := Put(dsl.fields, "components", rewritten);
    PutGet(dsl.fields, "components", rewritten, p.key);
    var linked := RelinkList(ids, top, "path").value;
    RelinkListMakes(ids, top, "path");
    Through(top, linked, "path", p.key);
    var drawn := RewriteGraph(ids, sorted, linked);
    GraphMakes(ids, sorted, linked);
    Through(linked, drawn, "graph", p.key);
    FormsAt(ids, drawn, p.key);
    AtKey(dsl, p.key, p.rest);
    AtKey(Normalize(dsl).value, p.key, p.rest);
    match Get(dsl.fields, p.key)
    case Some(v) => AtRewritten(ids, v, p.rest);
    case None =>
  }

  // ---------------------------------------------------------------- forms of nodes

  /** The form a node carries. */
  function FormOf(node: Json): Option<Json> {
    if !node.Obj? then None
    else match Get(node.fields, "data")
      case Some(Obj(data)) => Get(data, "form")
      case _ => None
  }

  lemma DataForm(ids: Ids, data: seq<Field>)
    ensures Get(RewriteData(ids, data), "form") == Rewrite(ids, Get(data, "form"))
  {
    var a := OnText(data, "label", RenameName);
    var b := OnText(a, "name", RenameName);
    OnTextMakes(data, "label", RenameName);
    Through(data, a, "label", "form");
    OnTextMakes(a, "name", RenameName);
    Through(a, b, "name", "form");
    FormAt(ids, b, "form");
  }

  lemma NodeForm(ids: Ids, node: Json)
    ensures FormOf(RewriteNode(ids, node)) == Rewrite(ids, FormOf(node))
  {
    if node.Obj? {
      var fs := node.fields;
      var a := RelinkOne(ids, fs, "id");
      RelinkOneMakes(ids, fs, "id");
      Through(fs, a, "id", "data");
      var b := RelinkOne(ids, a, "parentId");
      RelinkOneMakes(ids, a, "parentId");
      Through(a, b, "parentId", "data");
      var c := OnText(b, "type", RenameType);
      OnTextMakes(b, "type", RenameType);
      Through(b, c, "type", "data");
      OnDataForm(ids, c);
    }
  }

  lemma OnDataForm(ids: Ids, fs: seq<Field>)
    ensures FormOf(Obj(OnData(ids, fs))) == Rewrite(ids, FormOf(Obj(fs)))
  {
    match Get(fs, "data")
    case Some(Obj(data)) =>
      PutGet(fs, "data", Obj(RewriteData(ids, data)), "data");
      DataForm(ids, data);
    case _ =>
  }

  lemma FormContent(dsl: Json, n: nat, rest: seq<Step>)
    ensures Content(dsl, Form(n, rest)) ==
            if n < |Drawn(dsl, "nodes")|
            then (match FormOf(Drawn(dsl, "nodes")[n]) case Some(v) => At(v, rest) case None => None)
            else None
  {
    var a := [Key("form")] + rest;
    var b := [Key("data")] + a;
    var c := [Item(n)] + b;
    AtKey(dsl, "graph", [Key("nodes")] + c);
    if dsl.Obj? && Get(dsl.fields, "graph").Some? {
      var g := Get(dsl.fields, "graph").value;
      AtKey(g, "nodes", c);
      if g.Obj? && Get(g.fields, "nodes").Some? {
        AtItem(Get(g.fields, "nodes").value, n, b);
      }
    }
    if n < |Drawn(dsl, "nodes")| { NodeContent(Drawn(dsl, "nodes")[n], rest); }
  }

  lemma NodeContent(node: Json, rest: seq<Step>)
    ensures At(node, [Key("data")] + ([Key("form")] + rest)) == match FormOf(node) case Some(v) => At(v, rest) case None => None
  {
    var a := [Key("form")] + rest;
    AtKey(node, "data", a);
    if node.Obj? && Get(node.fields, "data").Some? {
      AtKey(Get(node.fields, "data").value, "form", rest);
    }
  }

  lemma DrawnNodes(dsl: Json)
    requires HasComponents(dsl) && Normalize(dsl).Done?
    ensures var before, after := Drawn(dsl, "nodes"), Drawn(Normalize(dsl).value, "nodes");
            && |after| == |before|
            && forall i | 0 <= i < |before| :: after[i] == RewriteNode(IdMap(Components(dsl)), before[i])
  {
    NormalizeParts(dsl);
    match Get(dsl.fields, "graph")
    case Some(Obj(g)) => DrawnParts(IdMap(Components(dsl)), ByLength(Components(dsl)), g);
    case _ =>
  }

  lemma FormRewritten(dsl: Json, p: Place)
    requires HasComponents(dsl) && Normalize(dsl).Done? && p.Form?
    ensures Content(Normalize(dsl).value, p) == Rewrite(IdMap(Components(dsl)), Content(dsl, p))
  {
    var ids := IdMap(Components(dsl));
    FormContent(dsl, p.node, p.rest);
    FormContent(Normalize(dsl).value, p.node, p.rest);
    DrawnNodes(dsl);
    if p.node < |Drawn(dsl, "nodes")| {
      var node := Drawn(dsl, "nodes")[p.node];
      NodeForm(ids, node);
      if FormOf(node).Some? { AtRewritten(ids, FormOf(node).value, p.rest); }
    }
  }

  // ---------------------------------------------------------------- the whole DSL

  /** Whatever stands at a place stands, rewritten, at the same place of the migrated DSL. */
  lemma PlaceRewritten(dsl: Json, p: Place)
    requires Ready(dsl) && Valid(p) && Content(dsl, p).Some?
    ensures Content(Normalize(dsl).value, Moved(p)) == Rewrite(IdMap(Components(dsl)), Content(dsl, p))
  {
    match p
    case Param(_, _, _) => ParamRewritten(dsl, p);
    case State(_, _) => StateRewritten(dsl, p);
    case Form(_, _) => FormRewritten(dsl, p);
  }

  /** The component of that id, rewritten, stands under the new id. */
  ghost predicate Resolves(dsl: Json, x: string)
    requires HasComponents(dsl) && Normalize(dsl).Done?
  {
    var out := Normalize(dsl).value;
    && HasComponents(out) && Get(Components(dsl), x).Some?
    && var r := RewriteComponent(IdMap(Components(dsl)), Get(Components(dsl), x).value);
       r.Done? && Get(Components(out), Rename(x)) == Some(r.value)
  }

  lemma KeyResolves(dsl: Json, x: string)
    requires Ready(dsl) && IsKey(Components(dsl), x)
    ensures Resolves(dsl, x)
  {
    NormalizeParts(dsl);
    var ids := IdMap(Components(dsl));
    ComponentFound(Rewriter(ids), ids, Components(dsl), x);
  }

  /** The i-th token of a text is that reference. */
  ghost predicate RefersAt(s: string, i: nat, ref: Ref) {
    i < |Tokens(Finding(), s)| && Tokens(Finding(), s)[i] == Reference(ref)
  }

  lemma TextRefers(components: seq<Field>, s: string, i: nat, ref: Ref)
    requires !IsKey(components, s) && RewriteComponents(IdMap(components), components).Done?
    requires RefersAt(s, i, ref) && IsKey(components, ref.id)
    ensures RefersAt(RewriteText(IdMap(components), s), i, ref.(id := Rename(ref.id)))
  {
    TextKeepsReferences(components, s, i);
  }

  /** References keep their place and their target: a reference to a component, in any text of
      the DSL, becomes at the same place of the migrated DSL the reference to the new id, under
      which the rewritten component stands. */
  lemma ReferencesKept(dsl: Json, p: Place, s: string, i: nat, ref: Ref)
    requires Ready(dsl) && Valid(p) && Content(dsl, p) == Some(Str(s)) && !IsKey(Components(dsl), s)
    requires RefersAt(s, i, ref) && IsKey(Components(dsl), ref.id)
    ensures var t := Content(Normalize(dsl).value, Moved(p));
            && t.Some? && t.value.Str? && RefersAt(t.value.s, i, ref.(id := Rename(ref.id)))
            && Resolves(dsl, ref.id)
  {
    PlaceRewritten(dsl, p);
    assert RewriteComponents(IdMap(Components(dsl)), Components(dsl)).Done?;
    TextRefers(Components(dsl), s, i, ref);
    KeyResolves(dsl, ref.id);
  }

  function ParentOf(components: seq<Field>, a: string): Option<string> {
    match Get(components, a)
    case Some(c) => TextAt(c, "parent_id")
    case None => None
  }

  /** A component's parent stays its parent, and is found under its new id. */
  lemma ParentsKept(dsl: Json, a: string, parent: string)
    requires Ready(dsl) && ParentOf(Components(dsl), a) == Some(parent) && IsKey(Components(dsl), parent)
    ensures var out := Normalize(dsl).value;
            HasComponents(out) && ParentOf(Components(out), Rename(a)) == Some(Rename(parent)) && Resolves(dsl, parent)
  {
    var ids := IdMap(Components(dsl));
    IsKeyGet(Components(dsl), a);
    KeyResolves(dsl, a);
    KeyResolves(dsl, parent);
    ParentRenamed(ids, Get(Components(dsl), a).value, parent);
  }

  // ---------------------------------------------------------------- classes and labels

  lemma PlainTextKept(ids: Ids, s: string)
    requires Renames(ids) && NoOpening(s) && Rename(s) == s
    ensures RewriteText(ids, s) == s
  {
    SubBefore(Finding(), ids, s, "");
    assert s + "" == s && Sub(Finding(), ids, "") == "";
  }

  lemma ClassContent(dsl: Json, c: string)
    requires HasComponents(dsl)
    ensures Content(dsl, Param(c, "component_name", [])) ==
            match Get(Components(dsl), c)
            case Some(Obj(fs)) => (match Get(fs, "obj") case Some(Obj(o)) => Get(o, "component_name") case _ => None)
            case _ => None
  {
    ParamContent(dsl, c, "component_name", []);
    match Get(Components(dsl), c)
    case Some(Obj(fs)) =>
      if Get(fs, "obj").Some? { AtKey(Get(fs, "obj").value, "component_name", []); }
    case _ =>
  }

  /** Class and id move together: a component whose id and class are those of a renamed class stands,
      in the migrated DSL, under the new id with the new class. */
  lemma ClassMovesWithId(dsl: Json, n: string, m: string, x: string)
    requires Ready(dsl) && RenamedClass(n, m)
    requires Content(dsl, Param(n + ":" + x, "component_name", [])) == Some(Str(n))
    ensures Content(Normalize(dsl).value, Param(m + ":" + x, "component_name", [])) == Some(Str(m))
  {
    var components, out := Components(dsl), Normalize(dsl).value;
    var ids, id := IdMap(components), n + ":" + x;
    ClassAndId(n, m, x);
    ClassContent(dsl, id);
    NormalizeParts(dsl);
    ClassContent(out, m + ":" + x);
    IsKeyGet(components, id);
    ComponentFound(Rewriter(ids), ids, components, id);
    var c := Get(components, id).value;
    var o := Get(c.fields, "obj").value.fields;
    ObjRewritten(ids, c, o, "component_name");
    RewriteGet(ids, o, "component_name");
    PlainClass(ids, n, m);
  }

  lemma PlainClass(ids: Ids, n: string, m: string)
    requires Renames(ids) && RenamedClass(n, m)
    ensures RewriteText(ids, n) == n
  {
    ClassAndId(n, m, "");
    RenameTwice(n);
    assert NoOpening("Splitter") && NoOpening("HierarchicalMerger") && NoOpening("PDFGenerator");
    PlainTextKept(ids, n);
  }

  /** The texts a drawn node carries: its type, and the label and name of its data. */
  function DataText(node: Json, key: string): Option<string> {
    if !node.Obj? then None
    else match Get(node.fields, "data")
      case Some(data) => TextAt(data, key)
      case None => None
  }

  lemma OnTextAt(fs: seq<Field>, key: string, rename: string -> string)
    ensures TextAt(Obj(OnText(fs, key, rename)), key) == match TextAt(Obj(fs), key) case Some(s) => Some(rename(s)) case None => None
  {
    match Get(fs, key)
    case Some(Str(s)) => PutGet(fs, key, Str(rename(s)), key);
    case _ =>
  }

  lemma OnTextOnly(fs: seq<Field>, key: string, rename: string -> string)
    ensures OnlyAt(fs, OnText(fs, key, rename), key)
  {
    match Get(fs, key)
    case Some(Str(s)) => PutOnlyAt(fs, key, Str(rename(s)));
    case _ =>
  }

  function ClassOf(x: Option<string>): Option<string> {
    match x
    case Some(s) => Some(RenameName(s))
    case None => None
  }

  lemma DataTexts(ids: Ids, data: seq<Field>)
    ensures TextAt(Obj(RewriteData(ids, data)), "label") == ClassOf(TextAt(Obj(data), "label"))
    ensures TextAt(Obj(RewriteData(ids, data)), "name") == ClassOf(TextAt(Obj(data), "name"))
  {
    var a := OnText(data, "label", RenameName);
    var b := OnText(a, "name", RenameName);
    OnTextAt(data, "label", RenameName);
    OnTextOnly(data, "label", RenameName);
    TextThrough(data, a, "label", "name");
    OnTextAt(a, "name", RenameName);
    OnTextOnly(a, "name", RenameName);
    TextThrough(a, b, "name", "label");
    RewriteFormMakes(ids, b, "form");
    TextThrough(b, RewriteData(ids, data), "form", "label");
    TextThrough(b, RewriteData(ids, data), "form", "name");
  }

  lemma OnDataTexts(ids: Ids, fs: seq<Field>, key: string)
    requires key == "label" || key == "name"
    ensures DataText(Obj(OnData(ids, fs)), key) == ClassOf(DataText(Obj(fs), key))
  {
    match Get(fs, "data")
    case Some(Obj(data)) =>
      PutGet(fs, "data", Obj(RewriteData(ids, data)), "data");
      DataTexts(ids, data);
    case _ =>
  }

  lemma NodeTexts(ids: Ids, node: Json, key: string)
    requires key == "label" || key == "name"
    ensures DataText(RewriteNode(ids, node), key) == ClassOf(DataText(node, key))
    ensures TextAt(RewriteNode(ids, node), "type") ==
            match TextAt(node, "type") case Some(s) => Some(if s == "splitterNode" then "chunkerNode" else s) case None => None
  {
    if node.Obj? {
      var fs := node.fields;
      var a := RelinkOne(ids, fs, "id");
      RelinkOneMakes(ids, fs, "id");
      Through(fs, a, "id", "data");
      Through(fs, a, "id", "type");
      var b := RelinkOne(ids, a, "parentId");
      RelinkOneMakes(ids, a, "parentId");
      Through(a, b, "parentId", "data");
      Through(a, b, "parentId", "type");
      var c := OnText(b, "type", RenameType);
      OnTextAt(b, "type", RenameType);
      OnTextOnly(b, "type", RenameType);
      Through(b, c, "type", "data");
      OnDataTexts(ids, c, key);
      OnDataOnly(ids, c);
      TextThrough(c, OnData(ids, c), "data", "type");
    }
  }

  /** A drawn node labelled, or named, with a renamed class gets the new class; every other label and
      name is kept. */
  lemma LabelsRenamed(dsl: Json, i: nat, key: string, n: string, m: string)
    requires HasComponents(dsl) && Normalize(dsl).Done? && i < |Drawn(dsl, "nodes")| && (key == "label" || key == "name")
    ensures i < |Drawn(Normalize(dsl).value, "nodes")|
    ensures var before, after := DataText(Drawn(dsl, "nodes")[i], key), DataText(Drawn(Normalize(dsl).value, "nodes")[i], key);
            && (RenamedClass(n, m) && before == Some(n) ==> after == Some(m))
            && (before != Some("Splitter") && before != Some("HierarchicalMerger") && before != Some("PDFGenerator") ==> after == before)
  {
    DrawnNodes(dsl);
    var before, after := Drawn(dsl, "nodes")[i], Drawn(Normalize(dsl).value, "nodes")[i];
    NodeTexts(IdMap(Components(dsl)), before, key);
    assert DataText(after, key) == ClassOf(DataText(before, key));
    ClassOfIs(DataText(before, key), n, m);
  }

  lemma ClassOfIs(before: Option<string>, n: string, m: string)
    ensures RenamedClass(n, m) && before == Some(n) ==> ClassOf(before) == Some(m)
    ensures before != Some("Splitter") && before != Some("HierarchicalMerger") && before != Some("PDFGenerator") ==> ClassOf(before) == before
  {
    if RenamedClass(n, m) { ClassAndId(n, m, ""); }
  }

  /** A node of the type "splitterNode" becomes a "chunkerNode"; every other type is kept. */
  lemma TypesRenamed(dsl: Json, i: nat)
    requires HasComponents(dsl) && Normalize(dsl).Done? && i < |Drawn(dsl, "nodes")|
    ensures i < |Drawn(Normalize(dsl).value, "nodes")|
    ensures var before, after := TextAt(Drawn(dsl, "nodes")[i], "type"), TextAt(Drawn(Normalize(dsl).value, "nodes")[i], "type");
            if before == Some("splitterNode") then after == Some("chunkerNode") else after == before
  {
    DrawnNodes(dsl);
    NodeTexts(IdMap(Components(dsl)), Drawn(dsl, "nodes")[i], "label");
  }

  // ---------------------------------------------------------------- ids of edges

  lemma EdgeIdAt(ids: Ids, sorted: seq<string>, edge: Json)
    ensures TextAt(RewriteEdge(ids, sorted, edge), "id") ==
            match TextAt(edge, "id") case Some(s) => Some(ReplaceAll(ids, sorted, s)) case None => None
  {
    if edge.Obj? {
      var fs := edge.fields;
      var a := RelinkOne(ids, fs, "source");
      RelinkOneMakes(ids, fs, "source");
      TextThrough(fs, a, "source", "id");
      var b := RelinkOne(ids, a, "target");
      RelinkOneMakes(ids, a, "target");
      TextThrough(a, b, "target", "id");
      match Get(b, "id")
      case Some(Str(s)) => PutGet(b, "id", Str(ReplaceAll(ids, sorted, s)), "id");
      case _ =>
    }
  }

  lemma DrawnEdges(dsl: Json)
    requires HasComponents(dsl) && Normalize(dsl).Done?
    ensures var before, after := Drawn(dsl, "edges"), Drawn(Normalize(dsl).value, "edges");
            && |after| == |before|
            && forall i | 0 <= i < |before| :: after[i] == RewriteEdge(IdMap(Components(dsl)), ByLength(Components(dsl)), before[i])
  {
    NormalizeParts(dsl);
    match Get(dsl.fields, "graph")
    case Some(Obj(g)) => DrawnParts(IdMap(Components(dsl)), ByLength(Components(dsl)), g);
    case _ =>
  }

  /** The id of a drawn edge that mentions no renamed component is kept; one that mentions a renamed
      component once, and no other, mentions it by its new id. */
  lemma EdgeIdsMigrate(dsl: Json, i: nat, s: string, k: string, n: nat)
    requires HasComponents(dsl) && Normalize(dsl).Done? && i < |Drawn(dsl, "edges")| && TextAt(Drawn(dsl, "edges")[i], "id") == Some(s)
    ensures i < |Drawn(Normalize(dsl).value, "edges")|
    ensures var after, all := TextAt(Drawn(Normalize(dsl).value, "edges")[i], "id"), ByLength(Components(dsl));
            && (NoneOccurs(all, s) ==> after == Some(s))
            && (k in all && Legacy(k) && Mentions(all, s, k, n) && NoneOccurs(all, s[..n] + (Rename(k) + s[n + |k|..])) ==>
                  after == Some(s[..n] + (Rename(k) + s[n + |k|..])))
  {
    var ids, all := IdMap(Components(dsl)), ByLength(Components(dsl));
    DrawnEdges(dsl);
    EdgeIdAt(ids, all, Drawn(dsl, "edges")[i]);
    if NoneOccurs(all, s) { EdgeIdKept(ids, all, s); }
    if k in all && Legacy(k) && Mentions(all, s, k, n) && NoneOccurs(all, s[..n] + (Rename(k) + s[n + |k|..])) {
      ByLengthOnly(Components(dsl), k);
      EdgeIdRenamed(ids, all, s, k, n);
    }
  }

  lemma {:induction false} ByLengthOnly(components: seq<Field>, k: string)
    requires k in ByLength(components)
    ensures IsKey(components, k)
  {
    var n := |components| - 1;
    if k != components[n].key {
      ByLengthOnly(components[..n], k);
      PrefixKey(components, k);
    } else {
      assert components[n].key == k;
    }
  }
}
