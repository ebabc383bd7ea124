/** What the migration keeps of the canvas graph: the components, their links, and every
    reference to them (agent/dsl_migration.py). */
module DslGraph {
  import opened Text
  import opened References
  import opened DslMigration
  import opened Wrappers

  // ---------------------------------------------------------------- components

  predicate IsKey(fs: seq<Field>, key: string) {
    exists i | 0 <= i < |fs| :: fs[i].key == key
  }

  lemma IsKeyGet(fs: seq<Field>, key: string)
    ensures IsKey(fs, key) <==> Get(fs, key).Some?
  {
    if Get(fs, key).Some? { assert fs[Position(fs, key)].key == key; }
  }

  /** No legacy id's new name is taken. */
  predicate NoCollision(components: seq<Field>) {
    forall i | 0 <= i < |components| && Legacy(components[i].key) :: !IsKey(components, Rename(components[i].key))
  }

  lemma RenamedApart(components: seq<Field>, a: string, b: string)
    requires NoCollision(components) && IsKey(components, a) && IsKey(components, b) && Rename(a) == Rename(b)
    ensures a == b
  {
    if a != b {
      CollideIff(a, b);
      RenameTwice(a);
      RenameTwice(b);
    }
  }

  predicate IsNewKey(components: seq<Field>, key: string) {
    exists i | 0 <= i < |components| :: Rename(components[i].key) == key
  }

  ghost predicate Built(rewrite: Rewrite, ids: Ids, components: seq<Field>) {
    Covers(ids, components) && Rebuild(rewrite, ids, components).Done?
  }

  ghost predicate Setup(rewrite: Rewrite, ids: Ids, components: seq<Field>) {
    Renames(ids) && Built(rewrite, ids, components)
  }

  lemma NewKeySnoc(components: seq<Field>, key: string)
    requires components != []
    ensures var n := |components| - 1; IsNewKey(components, key) <==> IsNewKey(components[..n], key) || key == Rename(components[n].key)
  {
    var init := components[..|components| - 1];
    assert forall i | 0 <= i < |init| :: init[i] == components[i];
  }

  lemma PutKeys(fs: seq<Field>, key: string, v: Json, other: string)
    ensures IsKey(Put(fs, key, v), other) <==> IsKey(fs, other) || other == key
  {
    PutGet(fs, key, v, other);
    IsKeyGet(fs, other);
    IsKeyGet(Put(fs, key, v), other);
  }

  /** The last component goes on top of what the others gave. */
  lemma RebuildSnoc(rewrite: Rewrite, ids: Ids, components: seq<Field>)
    requires Built(rewrite, ids, components) && components != []
    ensures var n := |components| - 1;
            && Built(rewrite, ids, components[..n]) && rewrite(components[n].value).Done?
            && Rebuild(rewrite, ids, components).value ==
               Put(Rebuild(rewrite, ids, components[..n]).value, ids[components[n].key], rewrite(components[n].value).value)
  {
    var n := |components| - 1;
    assert components[n].key in ids;
    assert forall i | 0 <= i < n :: components[..n][i] == components[i];
  }

  /** The new ids are the renamed ids. */
  lemma {:induction false} NewKeys(rewrite: Rewrite, ids: Ids, components: seq<Field>, key: string)
    requires Setup(rewrite, ids, components)
    ensures IsKey(Rebuild(rewrite, ids, components).value, key) <==> IsNewKey(components, key)
  {
    if components != [] {
      var n := |components| - 1;
      RebuildSnoc(rewrite, ids, components);
      NewKeys(rewrite, ids, components[..n], key);
      NewKeySnoc(components, key);
      PutKeys(Rebuild(rewrite, ids, components[..n]).value, ids[components[n].key], rewrite(components[n].value).value, key);
    }
  }

  ghost predicate NoneAfter(ids: Ids, components: seq<Field>, i: nat, key: string)
    requires Covers(ids, components)
  {
    forall j | i < j < |components| :: ids[components[j].key] != key
  }

  lemma NoneAfterPrefix(ids: Ids, components: seq<Field>, i: nat, key: string)
    requires components != [] && Covers(ids, components) && NoneAfter(ids, components, i, key)
    ensures var n := |components| - 1;
            && Covers(ids, components[..n]) && NoneAfter(ids, components[..n], i, key)
            && (i < n ==> ids[components[n].key] != key)
  {
    var init := components[..|components| - 1];
    assert forall j | 0 <= j < |init| :: init[j] == components[j];
  }

  /** Under a new id stands the last component that was renamed to it. */
  lemma {:induction false} LastWins(rewrite: Rewrite, ids: Ids, components: seq<Field>, i: nat, key: string)
    requires Built(rewrite, ids, components) && i < |components|
    requires key == ids[components[i].key] && NoneAfter(ids, components, i, key)
    ensures rewrite(components[i].value).Done?
    ensures Get(Rebuild(rewrite, ids, components).value, key) == Some(rewrite(components[i].value).value)
  {
    var n := |components| - 1;
    var init, last := components[..n], components[n];
    RebuildSnoc(rewrite, ids, components);
    PutGet(Rebuild(rewrite, ids, init).value, ids[last.key], rewrite(last.value).value, key);
    NoneAfterPrefix(ids, components, i, key);
    if i < n {
      assert init[i] == components[i];
      LastWins(rewrite, ids, init, i, key);
    }
  }

  /** Without collisions every component is found, rewritten, under its new id. */
  lemma ComponentFound(rewrite: Rewrite, ids: Ids, components: seq<Field>, key: string)
    requires Setup(rewrite, ids, components) && Distinct(components) && NoCollision(components) && IsKey(components, key)
    ensures var c := Get(components, key);
            && c.Some? && rewrite(c.value).Done?
            && Get(Rebuild(rewrite, ids, components).value, Rename(key)) == Some(rewrite(c.value).value)
  {
    IsKeyGet(components, key);
    var i := Position(components, key);
    forall j | i < j < |components|
      ensures ids[components[j].key] != Rename(key)
    {
      assert components[j].key in ids;
      if Rename(components[j].key) == Rename(components[i].key) {
        RenamedApart(components, components[j].key, components[i].key);
      }
    }
    LastWins(rewrite, ids, components, i, Rename(key));
  }

  lemma CollisionFreePrefix(components: seq<Field>)
    requires components != [] && Distinct(components) && NoCollision(components)
    ensures var n := |components| - 1; NoCollision(components[..n]) && !IsNewKey(components[..n], Rename(components[n].key))
  {
    var n := |components| - 1;
    var init, last := components[..n], components[n].key;
    forall i | 0 <= i < n
      ensures Rename(init[i].key) != Rename(last)
      ensures Legacy(init[i].key) ==> !IsKey(init, Rename(init[i].key))
    {
      assert init[i] == components[i];
      assert IsKey(components, init[i].key);
      if Rename(init[i].key) == Rename(last) {
        RenamedApart(components, init[i].key, last);
      }
      PrefixKey(components, Rename(init[i].key));
    }
  }

  lemma PrefixKey(components: seq<Field>, key: string)
    requires components != []
    ensures var n := |components| - 1; IsKey(components, key) <==> IsKey(components[..n], key) || key == components[n].key
  {
    var init := components[..|components| - 1];
    assert forall i | 0 <= i < |init| :: init[i] == components[i];
  }

  lemma CollisionFreeSnoc(components: seq<Field>)
    requires components != []
    requires var n := |components| - 1; NoCollision(components[..n]) && !IsNewKey(components[..n], Rename(components[n].key))
    ensures NoCollision(components)
  {
    var n := |components| - 1;
    var init, last := components[..n], components[n].key;
    forall i | 0 <= i < |components| && Legacy(components[i].key)
      ensures !IsKey(components, Rename(components[i].key))
    {
      var key := components[i].key;
      RenameTwice(key);
      PrefixKey(components, Rename(key));
      if i == n {
        NotRenamedHere(init, key);
      } else {
        assert init[i].key == key;
        assert !IsKey(init, Rename(key));
        assert Rename(init[i].key) != Rename(last);
      }
    }
  }

  lemma NotRenamedHere(components: seq<Field>, key: string)
    requires !IsNewKey(components, Rename(key))
    ensures !IsKey(components, Rename(key))
  {
    RenameTwice(key);
  }

  lemma CollisionSnoc(components: seq<Field>)
    requires components != [] && Distinct(components)
    ensures var n := |components| - 1;
            NoCollision(components) <==> NoCollision(components[..n]) && !IsNewKey(components[..n], Rename(components[n].key))
  {
    var n := |components| - 1;
    if NoCollision(components) { CollisionFreePrefix(components); }
    if NoCollision(components[..n]) && !IsNewKey(components[..n], Rename(components[n].key)) { CollisionFreeSnoc(components); }
  }

  /** No component is lost exactly when no legacy id's new name is taken. */
  lemma {:induction false} NothingLostIff(rewrite: Rewrite, ids: Ids, components: seq<Field>)
    requires Setup(rewrite, ids, components) && Distinct(components)
    ensures |Rebuild(rewrite, ids, components).value| <= |components|
    ensures |Rebuild(rewrite, ids, components).value| == |components| <==> NoCollision(components)
  {
    if components != [] {
      var n := |components| - 1;
      RebuildSnoc(rewrite, ids, components);
      NothingLostIff(rewrite, ids, components[..n]);
      var before := Rebuild(rewrite, ids, components[..n]).value;
      var key := Rename(components[n].key);
      NewKeys(rewrite, ids, components[..n], key);
      IsKeyGet(before, key);
      CollisionSnoc(components);
    }
  }

  /** The three classes that were renamed. */
  predicate RenamedClass(n: string, m: string) {
    || (n == "Splitter" && m == "TokenChunker")
    || (n == "HierarchicalMerger" && m == "TitleChunker")
    || (n == "PDFGenerator" && m == "DocGenerator")
  }

  /** Class and id move together. */
  lemma ClassAndId(n: string, m: string, x: string)
    requires RenamedClass(n, m)
    ensures RenameName(n) == m && Legacy(n + ":" + x) && Rename(n + ":" + x) == m + ":" + x && !Legacy(n)
  {
    var id := n + ":" + x;
    assert id[|n + ":"|..] == x;
    Heads(n);
    if n == "Splitter" { assert SPLITTER <= id; }
    if n == "HierarchicalMerger" { assert MERGER <= id; }
    if n == "PDFGenerator" { assert GENERATOR <= id; }
    Heads(id);
  }

  lemma LegacyHasClass(id: string) returns (n: string, m: string, x: string)
    requires Legacy(id)
    ensures RenamedClass(n, m) && id == n + ":" + x
  {
    if SPLITTER <= id {
      n, m, x := "Splitter", "TokenChunker", id[|SPLITTER|..];
      assert id == SPLITTER + x && n + ":" == SPLITTER;
    } else if MERGER <= id {
      n, m, x := "HierarchicalMerger", "TitleChunker", id[|MERGER|..];
      assert id == MERGER + x && n + ":" == MERGER;
    } else {
      n, m, x := "PDFGenerator", "DocGenerator", id[|GENERATOR|..];
      assert id == GENERATOR + x && n + ":" == GENERATOR;
    }
  }

  ghost predicate OfClass(id: string, n: string, m: string, x: string) {
    RenamedClass(n, m) && id == n + ":" + x
  }

  /** Nothing else is renamed: no other class, and no id without one of the three in front. */
  lemma OthersKept(s: string)
    ensures RenameName(s) != s <==> s == "Splitter" || s == "HierarchicalMerger" || s == "PDFGenerator"
    ensures Rename(s) != s <==> exists n, m, x :: OfClass(s, n, m, x)
  {
    RenameTwice(s);
    if Legacy(s) {
      var n, m, x := LegacyHasClass(s);
      assert OfClass(s, n, m, x);
    }
    if n, m, x :| OfClass(s, n, m, x) { ClassAndId(n, m, x); }
  }

  /** A collision overwrites: the legacy component is gone, whatever it was. */
  lemma CollisionOverwrites(name: string, v: Json, w: Json)
    ensures var fs := [Field("Splitter:" + name, v), Field("TokenChunker:" + name, w)];
            var r := RewriteComponents(IdMap(fs), fs);
            && Distinct(fs) && !NoCollision(fs)
            && (r.Done? ==> |r.value| == 1)
  {
    ClassAndId("Splitter", "TokenChunker", name);
    OneTaken(Field("Splitter:" + name, v), Field("TokenChunker:" + name, w));
  }

  lemma TwoFields(a: Field, b: Field)
    requires Legacy(a.key) && Rename(a.key) == b.key
    ensures Distinct([a, b]) && !NoCollision([a, b]) && IsNewKey([a, b], b.key) && Covers(IdMap([a, b]), [a, b]) && Renames(IdMap([a, b]))
  {
    var fs := [a, b];
    RenameTwice(a.key);
    assert fs[0] == a && fs[1] == b;
    assert IsKey(fs, Rename(fs[0].key));
  }

  lemma OneTaken(a: Field, b: Field)
    requires Legacy(a.key) && Rename(a.key) == b.key
    ensures var r := RewriteComponents(IdMap([a, b]), [a, b]);
            Distinct([a, b]) && !NoCollision([a, b]) && (r.Done? ==> |r.value| == 1)
  {
    var fs := [a, b];
    TwoFields(a, b);
    var ids := IdMap(fs);
    if Rebuild(Rewriter(ids), ids, fs).Done? {
      NothingLostIff(Rewriter(ids), ids, fs);
      NewKeys(Rewriter(ids), ids, fs, b.key);
    }
  }

  // ---------------------------------------------------------------- links

  /** The links of a component under `downstream` or `upstream`. */
  function Links(component: Json, kind: string): seq<Json> {
    if !component.Obj? then []
    else match Get(component.fields, kind)
      case Some(Arr(vs)) => vs
      case _ => []
  }

  lemma RewriteGet(ids: Ids, fs: seq<Field>, key: string)
    ensures var gs := RewriteValue(ids, Obj(fs)).fields;
            Get(gs, key) == match Get(fs, key) case Some(v) => Some(RewriteValue(ids, v)) case None => None
  {
    var gs := RewriteValue(ids, Obj(fs)).fields;
    var p, q := Position(fs, key), Position(gs, key);
    assert forall i | 0 <= i < |fs| :: gs[i].key == fs[i].key;
    assert p == q;
  }

  function Link(ids: Ids, v: Json): Json {
    Relink(ids, RewriteValue(ids, v))
  }

  /** Rewriting the links twice is harmless: new ids are fixed points. */
  lemma LinkIsRenamed(ids: Ids, x: string)
    requires Renames(ids) && x in ids
    ensures Link(ids, Str(x)) == Str(Rename(x))
  {
    RenameTwice(x);
  }

  ghost predicate Relinked(ids: Ids, before: seq<Json>, after: seq<Json>) {
    |after| == |before| && forall i | 0 <= i < |before| :: after[i] == Relink(ids, before[i])
  }

  lemma RelinkListGet(ids: Ids, fs: seq<Field>, key: string)
    requires RelinkList(ids, fs, key).Done?
    ensures Relinked(ids, Links(Obj(fs), key), Links(Obj(RelinkList(ids, fs, key).value), key))
  {
    match Get(fs, key)
    case Some(Arr(vs)) => PutGet(fs, key, Arr(RelinkAll(ids, vs).value), key);
    case _ =>
  }

  lemma RewrittenLinks(ids: Ids, fs: seq<Field>, kind: string)
    ensures var before := Links(Obj(fs), kind);
            var out := Links(RewriteValue(ids, Obj(fs)), kind);
            |out| == |before| && forall i | 0 <= i < |before| :: out[i] == RewriteValue(ids, before[i])
  {
    RewriteGet(ids, fs, kind);
  }

  ghost predicate LinksAre(ids: Ids, before: seq<Json>, after: seq<Json>) {
    |after| == |before| && forall i | 0 <= i < |before| :: after[i] == Link(ids, before[i])
  }

  lemma LinksStay(fs: seq<Field>, gs: seq<Field>, key: string, kind: string)
    requires OnlyAt(fs, gs, key) && kind != key
    ensures Links(Obj(gs), kind) == Links(Obj(fs), kind)
  {
    Through(fs, gs, key, kind);
  }

  /** Each link of a rewritten component is the old link, rewritten, at its old place. */
  lemma LinksRewritten(ids: Ids, component: Json)
    requires RewriteComponent(ids, component).Done?
    ensures LinksAre(ids, Links(component, "downstream"), Links(RewriteComponent(ids, component).value, "downstream"))
    ensures LinksAre(ids, Links(component, "upstream"), Links(RewriteComponent(ids, component).value, "upstream"))
  {
    if component.Obj? {
      var v := RewriteValue(ids, component).fields;
      RewrittenLinks(ids, component.fields, "downstream");
      RewrittenLinks(ids, component.fields, "upstream");
      var a := RenameObj(v).value;
      RenameObjMakes(v);
      LinksStay(v, a, "obj", "downstream");
      LinksStay(v, a, "obj", "upstream");
      var b := RelinkList(ids, a, "downstream").value;
      var c := RelinkList(ids, b, "upstream").value;
      RelinkBoth(ids, a, "downstream", "upstream");
      var d := RelinkOne(ids, c, "parent_id");
      RelinkOneMakes(ids, c, "parent_id");
      LinksStay(c, d, "parent_id", "downstream");
      LinksStay(c, d, "parent_id", "upstream");
    }
  }

  lemma RelinkBoth(ids: Ids, fs: seq<Field>, k: string, l: string)
    requires k != l && RelinkList(ids, fs, k).Done? && RelinkList(ids, RelinkList(ids, fs, k).value, l).Done?
    ensures var gs := RelinkList(ids, RelinkList(ids, fs, k).value, l).value;
            Relinked(ids, Links(Obj(fs), k), Links(Obj(gs), k)) && Relinked(ids, Links(Obj(fs), l), Links(Obj(gs), l))
  {
    var a := RelinkList(ids, fs, k).value;
    RelinkListMakes(ids, fs, k);
    RelinkListGet(ids, fs, k);
    LinksStay(fs, a, k, l);
    RelinkListMakes(ids, a, l);
    RelinkListGet(ids, a, l);
    LinksStay(a, RelinkList(ids, a, l).value, l, k);
  }

  lemma OtherField(ids: Ids, component: Json, key: string)
    requires RewriteComponent(ids, component).Done? && component.Obj?
    requires key != "obj" && key != "downstream" && key != "upstream"
    ensures var v := RewriteValue(ids, component).fields;
            var out := RewriteComponent(ids, component).value;
            && out.Obj?
            && Get(out.fields, key) ==
               match Get(v, key)
               case Some(Str(s)) => if key == "parent_id" then Some(Str(Look(ids, s))) else Get(v, key)
               case _ => Get(v, key)
  {
    var v := RewriteValue(ids, component).fields;
    var a := RenameObj(v).value;
    RenameObjMakes(v);
    Through(v, a, "obj", key);
    var b := RelinkList(ids, a, "downstream").value;
    RelinkListMakes(ids, a, "downstream");
    Through(a, b, "downstream", key);
    var c := RelinkList(ids, b, "upstream").value;
    RelinkListMakes(ids, b, "upstream");
    Through(b, c, "upstream", key);
    match Get(c, "parent_id")
    case Some(Str(s)) => PutGet(c, "parent_id", Str(Look(ids, s)), key);
    case _ =>
  }

  /** A parent that is a component stays the parent, under its new id. */
  lemma ParentRenamed(ids: Ids, component: Json, parent: string)
    requires RewriteComponent(ids, component).Done? && Renames(ids) && parent in ids
    requires component.Obj? && Get(component.fields, "parent_id") == Some(Str(parent))
    ensures RewriteComponent(ids, component).value.Obj?
    ensures Get(RewriteComponent(ids, component).value.fields, "parent_id") == Some(Str(Rename(parent)))
  {
    OtherField(ids, component, "parent_id");
    RewriteGet(ids, component.fields, "parent_id");
    RenameTwice(parent);
  }

  // ---------------------------------------------------------------- the graph is kept

  /** `a` links to `b`. */
  ghost predicate Joins(components: seq<Field>, kind: string, a: string, b: string) {
    match Get(components, a)
    case Some(c) => LinksTo(Links(c, kind), b)
    case None => false
  }

  ghost predicate AllResolved(components: seq<Field>, a: string, kind: string) {
    match Get(components, a)
    case Some(c) => forall i | 0 <= i < |Links(c, kind)| :: Links(c, kind)[i].Str? && IsKey(components, Links(c, kind)[i].s)
    case None => true
  }

  predicate LinkKind(kind: string) {
    kind == "downstream" || kind == "upstream"
  }

  ghost predicate LinksTo(links: seq<Json>, b: string) {
    exists i | 0 <= i < |links| :: links[i] == Str(b)
  }

  lemma LinkKept(ids: Ids, before: seq<Json>, after: seq<Json>, b: string)
    requires LinksAre(ids, before, after) && Renames(ids) && b in ids && LinksTo(before, b)
    ensures LinksTo(after, Rename(b))
  {
    var i :| 0 <= i < |before| && before[i] == Str(b);
    LinkIsRenamed(ids, b);
    assert after[i] == Str(Rename(b));
  }

  lemma NoLinkAdded(components: seq<Field>, ids: Ids, before: seq<Json>, after: seq<Json>, b: string)
    requires LinksAre(ids, before, after) && Renames(ids) && Covers(ids, components) && NoCollision(components) && IsKey(components, b)
    requires forall i | 0 <= i < |before| :: before[i].Str? && IsKey(components, before[i].s)
    requires LinksTo(after, Rename(b))
    ensures LinksTo(before, b)
  {
    var i :| 0 <= i < |after| && after[i] == Str(Rename(b));
    var x := before[i].s;
    LinkIsRenamed(ids, x);
    RenamedApart(components, x, b);
    assert before[i] == Str(b);
  }

  /** Renaming is a homomorphism of the component graph, and an isomorphism where all links
      resolve. */
  lemma JoinsKept(ids: Ids, components: seq<Field>, kind: string, a: string, b: string)
    requires Setup(Rewriter(ids), ids, components) && Distinct(components) && NoCollision(components) && LinkKind(kind)
    requires IsKey(components, a) && IsKey(components, b)
    ensures var out := RewriteComponents(ids, components).value;
            && (Joins(components, kind, a, b) ==> Joins(out, kind, Rename(a), Rename(b)))
            && (AllResolved(components, a, kind) && Joins(out, kind, Rename(a), Rename(b)) ==> Joins(components, kind, a, b))
  {
    var out := RewriteComponents(ids, components).value;
    ComponentFound(Rewriter(ids), ids, components, a);
    var c := Get(components, a).value;
    LinksRewritten(ids, c);
    var before, after := Links(c, kind), Links(RewriteComponent(ids, c).value, kind);
    assert b in ids;
    if LinksTo(before, b) { LinkKept(ids, before, after, b); }
    if AllResolved(components, a, kind) && LinksTo(after, Rename(b)) { NoLinkAdded(components, ids, before, after, b); }
  }

  /** A plain link that resolved to nothing comes to resolve exactly when it is the new name of
      a component. */
  lemma DanglingLink(ids: Ids, components: seq<Field>, x: string)
    requires Setup(Rewriter(ids), ids, components) && ids.Keys == (set i | 0 <= i < |components| :: components[i].key)
    requires !IsKey(components, x) && NoOpening(x)
    ensures Link(ids, Str(x)) == Str(x)
    ensures IsKey(RewriteComponents(ids, components).value, x) <==> IsNewKey(components, x)
  {
    NewKeys(Rewriter(ids), ids, components, x);
    SubBefore(Finding(), ids, x, "");
    assert x + "" == x && Sub(Finding(), ids, "") == "";
  }

  // ---------------------------------------------------------------- whole DSLs

  predicate HasComponents(dsl: Json) {
    dsl.Obj? && Get(dsl.fields, "components").Some? && Get(dsl.fields, "components").value.Obj?
  }

  function Components(dsl: Json): seq<Field>
    requires HasComponents(dsl)
  {
    Get(dsl.fields, "components").value.fields
  }

  /** What the stages after the components make of the other fields. */
  lemma DrawnKeeps(ids: Ids, sorted: seq<string>, fs: seq<Field>)
    ensures var out := Forms(ids, RewriteGraph(ids, sorted, fs));
            && Get(out, "components") == Get(fs, "components") && Get(out, "path") == Get(fs, "path")
            && Get(out, "graph") == Get(RewriteGraph(ids, sorted, fs), "graph")
  {
    var drawn := RewriteGraph(ids, sorted, fs);
    GraphMakes(ids, sorted, fs);
    Through(fs, drawn, "graph", "components");
    Through(fs, drawn, "graph", "path");
    FormsKeep(ids, drawn, "components");
    FormsKeep(ids, drawn, "path");
    FormsKeep(ids, drawn, "graph");
  }

  lemma LinkedKeeps(ids: Ids, fs: seq<Field>, components: Json)
    requires RelinkList(ids, Put(fs, "components", components), "path").Done?
    ensures var out := RelinkList(ids, Put(fs, "components", components), "path").value;
            && Get(out, "components") == Some(components) && Get(out, "graph") == Get(fs, "graph")
            && Relinked(ids, Links(Obj(fs), "path"), Links(Obj(out), "path"))
  {
    var top := Put(fs, "components", components);
    PutOnlyAt(fs, "components", components);
    Through(fs, top, "components", "path");
    Through(fs, top, "components", "graph");
    var linked := RelinkList(ids, top, "path").value;
    RelinkListMakes(ids, top, "path");
    RelinkListGet(ids, top, "path");
    Through(top, linked, "path", "components");
    Through(top, linked, "path", "graph");
  }

  lemma NormalizeParts(dsl: Json)
    requires HasComponents(dsl) && Normalize(dsl).Done?
    ensures var ids, out := IdMap(Components(dsl)), Normalize(dsl).value;
            && HasComponents(out) && Setup(Rewriter(ids), ids, Components(dsl))
            && Components(out) == RewriteComponents(ids, Components(dsl)).value
            && Relinked(ids, Links(dsl, "path"), Links(out, "path"))
            && Get(out.fields, "graph") ==
               match Get(dsl.fields, "graph")
               case Some(Obj(g)) => Some(Obj(RewriteEdges(ids, ByLength(Components(dsl)), RewriteNodes(ids, g))))
               case other => other
  {
    var ids, sorted := IdMap(Components(dsl)), ByLength(Components(dsl));
    var rewritten := Obj(RewriteComponents(ids, Components(dsl)).value);
    var linked := RelinkList(ids, Put(dsl.fields, "components", rewritten), "path").value;
    LinkedKeeps(ids, dsl.fields, rewritten);
    DrawnKeeps(ids, sorted, linked);
    GraphAt(ids, sorted, linked);
  }

  lemma GraphAt(ids: Ids, sorted: seq<string>, fs: seq<Field>)
    ensures Get(RewriteGraph(ids, sorted, fs), "graph") ==
            match Get(fs, "graph")
            case Some(Obj(g)) => Some(Obj(RewriteEdges(ids, sorted, RewriteNodes(ids, g))))
            case other => other
  {
    match Get(fs, "graph")
    case Some(Obj(g)) => PutGet(fs, "graph", Obj(RewriteEdges(ids, sorted, RewriteNodes(ids, g))), "graph");
    case _ =>
  }

  /** The components of a DSL, and the links between them, survive the migration under their
      new ids when no ids collide. */
  lemma MigrationKeepsGraph(dsl: Json, kind: string, a: string, b: string)
    requires HasComponents(dsl) && Normalize(dsl).Done? && Distinct(Components(dsl)) && NoCollision(Components(dsl))
    requires LinkKind(kind) && IsKey(Components(dsl), a) && IsKey(Components(dsl), b)
    ensures var out := Normalize(dsl).value;
            && HasComponents(out) && |Components(out)| == |Components(dsl)|
            && IsKey(Components(out), Rename(a))
            && (Rename(a) == Rename(b) <==> a == b)
            && (Joins(Components(dsl), kind, a, b) ==> Joins(Components(out), kind, Rename(a), Rename(b)))
            && (AllResolved(Components(dsl), a, kind) && Joins(Components(out), kind, Rename(a), Rename(b)) ==>
                  Joins(Components(dsl), kind, a, b))
  {
    NormalizeParts(dsl);
    var ids, components := IdMap(Components(dsl)), Components(dsl);
    NothingLostIff(Rewriter(ids), ids, components);
    JoinsKept(ids, components, kind, a, b);
    NewKeys(Rewriter(ids), ids, components, Rename(a));
    if Rename(a) == Rename(b) { RenamedApart(components, a, b); }
  }

  /** The ids on the path are renamed in place. */
  lemma PathRenamed(dsl: Json, i: nat)
    requires HasComponents(dsl) && Normalize(dsl).Done? && i < |Links(dsl, "path")|
    ensures var x, out := Links(dsl, "path")[i], Normalize(dsl).value;
            && |Links(out, "path")| == |Links(dsl, "path")|
            && (x.Str? && IsKey(Components(dsl), x.s) ==> Links(out, "path")[i] == Str(Rename(x.s)))
            && (!x.Str? || !IsKey(Components(dsl), x.s) ==> Links(out, "path")[i] == x)
  {
    NormalizeParts(dsl);
  }

  // ---------------------------------------------------------------- the drawn graph

  /** The nodes or the edges of the drawn graph. */
  function Drawn(dsl: Json, kind: string): seq<Json> {
    if !dsl.Obj? then []
    else match Get(dsl.fields, "graph")
      case Some(Obj(g)) => Links(Obj(g), kind)
      case _ => []
  }

  function TextAt(v: Json, key: string): Option<string> {
    if !v.Obj? then None
    else match Get(v.fields, key)
      case Some(Str(s)) => Some(s)
      case _ => None
  }

  function LookAt(ids: Ids, x: Option<string>): Option<string> {
    match x
    case Some(s) => Some(Look(ids, s))
    case None => None
  }

  lemma RelinkOneAt(ids: Ids, fs: seq<Field>, key: string)
    ensures TextAt(Obj(RelinkOne(ids, fs, key)), key) == LookAt(ids, TextAt(Obj(fs), key))
  {
    match Get(fs, key)
    case Some(Str(s)) => PutGet(fs, key, Str(Look(ids, s)), key);
    case _ =>
  }

  lemma TextThrough(fs: seq<Field>, gs: seq<Field>, key: string, other: string)
    requires OnlyAt(fs, gs, key) && other != key
    ensures TextAt(Obj(gs), other) == TextAt(Obj(fs), other)
  {
    Through(fs, gs, key, other);
  }

  lemma RelinkTwo(ids: Ids, fs: seq<Field>, k: string, l: string)
    requires k != l
    ensures var gs := Obj(RelinkOne(ids, RelinkOne(ids, fs, k), l));
            TextAt(gs, k) == LookAt(ids, TextAt(Obj(fs), k)) && TextAt(gs, l) == LookAt(ids, TextAt(Obj(fs), l))
  {
    var a := RelinkOne(ids, fs, k);
    RelinkOneAt(ids, fs, k);
    RelinkOneMakes(ids, fs, k);
    TextThrough(fs, a, k, l);
    RelinkOneAt(ids, a, l);
    RelinkOneMakes(ids, a, l);
    TextThrough(a, RelinkOne(ids, a, l), l, k);
  }

  lemma NodeRenamed(ids: Ids, node: Json)
    ensures TextAt(RewriteNode(ids, node), "id") == LookAt(ids, TextAt(node, "id"))
    ensures TextAt(RewriteNode(ids, node), "parentId") == LookAt(ids, TextAt(node, "parentId"))
  {
    if node.Obj? {
      var a := RelinkOne(ids, RelinkOne(ids, node.fields, "id"), "parentId");
      RelinkTwo(ids, node.fields, "id", "parentId");
      var b := OnText(a, "type", RenameType);
      OnTextMakes(a, "type", RenameType);
      TextThrough(a, b, "type", "id");
      TextThrough(a, b, "type", "parentId");
      OnDataOnly(ids, b);
      TextThrough(b, OnData(ids, b), "data", "id");
      TextThrough(b, OnData(ids, b), "data", "parentId");
    }
  }

  lemma OnEdgeIdMakes(ids: Ids, sorted: seq<string>, fs: seq<Field>)
    ensures OnlyAt(fs, OnEdgeId(ids, sorted, fs), "id")
  {
    match Get(fs, "id")
    case Some(Str(s)) => PutOnlyAt(fs, "id", Str(ReplaceAll(ids, sorted, s)));
    case _ =>
  }

  lemma EdgeRenamed(ids: Ids, sorted: seq<string>, edge: Json)
    ensures TextAt(RewriteEdge(ids, sorted, edge), "source") == LookAt(ids, TextAt(edge, "source"))
    ensures TextAt(RewriteEdge(ids, sorted, edge), "target") == LookAt(ids, TextAt(edge, "target"))
  {
    if edge.Obj? {
      var a := RelinkOne(ids, RelinkOne(ids, edge.fields, "source"), "target");
      RelinkTwo(ids, edge.fields, "source", "target");
      OnEdgeIdMakes(ids, sorted, a);
      TextThrough(a, OnEdgeId(ids, sorted, a), "id", "source");
      TextThrough(a, OnEdgeId(ids, sorted, a), "id", "target");
    }
  }

  lemma DrawnParts(ids: Ids, sorted: seq<string>, g: seq<Field>)
    ensures var h := RewriteEdges(ids, sorted, RewriteNodes(ids, g));
            && |Links(Obj(h), "nodes")| == |Links(Obj(g), "nodes")|
            && (forall i | 0 <= i < |Links(Obj(g), "nodes")| :: Links(Obj(h), "nodes")[i] == RewriteNode(ids, Links(Obj(g), "nodes")[i]))
            && |Links(Obj(h), "edges")| == |Links(Obj(g), "edges")|
            && (forall i | 0 <= i < |Links(Obj(g), "edges")| :: Links(Obj(h), "edges")[i] == RewriteEdge(ids, sorted, Links(Obj(g), "edges")[i]))
  {
    var n := RewriteNodes(ids, g);
    NodesMake(ids, g);
    Through(g, n, "nodes", "edges");
    var h := RewriteEdges(ids, sorted, n);
    EdgesMake(ids, sorted, n);
    Through(n, h, "edges", "nodes");
    NodesAt(ids, g);
    EdgesAt(ids, sorted, n);
  }

  lemma NodesAt(ids: Ids, g: seq<Field>)
    ensures var h := Obj(RewriteNodes(ids, g));
            && |Links(h, "nodes")| == |Links(Obj(g), "nodes")|
            && forall i | 0 <= i < |Links(Obj(g), "nodes")| :: Links(h, "nodes")[i] == RewriteNode(ids, Links(Obj(g), "nodes")[i])
  {
    match Get(g, "nodes")
    case Some(Arr(nodes)) =>
      PutGet(g, "nodes", Arr(seq(|nodes|, i requires 0 <= i < |nodes| => RewriteNode(ids, nodes[i]))), "nodes");
    case _ =>
  }

  lemma EdgesAt(ids: Ids, sorted: seq<string>, g: seq<Field>)
    ensures var h := Obj(RewriteEdges(ids, sorted, g));
            && |Links(h, "edges")| == |Links(Obj(g), "edges")|
            && forall i | 0 <= i < |Links(Obj(g), "edges")| :: Links(h, "edges")[i] == RewriteEdge(ids, sorted, Links(Obj(g), "edges")[i])
  {
    match Get(g, "edges")
    case Some(Arr(edges)) =>
      PutGet(g, "edges", Arr(seq(|edges|, i requires 0 <= i < |edges| => RewriteEdge(ids, sorted, edges[i]))), "edges");
    case _ =>
  }

  ghost predicate SameDrawing(ids: Ids, before: seq<Json>, after: seq<Json>, key: string) {
    |after| == |before| && forall i | 0 <= i < |before| :: TextAt(after[i], key) == LookAt(ids, TextAt(before[i], key))
  }

  /** The drawn graph is the same drawing: node by node and edge by edge, with ids renamed. */
  lemma DrawingRenamed(dsl: Json)
    requires HasComponents(dsl) && Normalize(dsl).Done?
    ensures var ids, out := IdMap(Components(dsl)), Normalize(dsl).value;
            && SameDrawing(ids, Drawn(dsl, "nodes"), Drawn(out, "nodes"), "id")
            && SameDrawing(ids, Drawn(dsl, "nodes"), Drawn(out, "nodes"), "parentId")
            && SameDrawing(ids, Drawn(dsl, "edges"), Drawn(out, "edges"), "source")
            && SameDrawing(ids, Drawn(dsl, "edges"), Drawn(out, "edges"), "target")
  {
    NormalizeParts(dsl);
    var ids, sorted := IdMap(Components(dsl)), ByLength(Components(dsl));
    match Get(dsl.fields, "graph")
    case Some(Obj(g)) =>
      DrawnParts(ids, sorted, g);
      var nodes, edges := Links(Obj(g), "nodes"), Links(Obj(g), "edges");
      forall i | 0 <= i < |nodes|
        ensures TextAt(RewriteNode(ids, nodes[i]), "id") == LookAt(ids, TextAt(nodes[i], "id"))
        ensures TextAt(RewriteNode(ids, nodes[i]), "parentId") == LookAt(ids, TextAt(nodes[i], "parentId"))
      {
        NodeRenamed(ids, nodes[i]);
      }
      forall i | 0 <= i < |edges|
        ensures TextAt(RewriteEdge(ids, sorted, edges[i]), "source") == LookAt(ids, TextAt(edges[i], "source"))
        ensures TextAt(RewriteEdge(ids, sorted, edges[i]), "target") == LookAt(ids, TextAt(edges[i], "target"))
      {
        EdgeRenamed(ids, sorted, edges[i]);
      }
    case _ =>
  }

  // ---------------------------------------------------------------- references in texts

  lemma IdMapKeepsShape(components: seq<Field>)
    ensures KeepsShape(IdMap(components))
  {
    var ids := IdMap(components);
    forall k | k in ids && k != "" && AllIn(IdChar, k)
      ensures ids[k] != "" && AllIn(IdChar, ids[k])
    {
      RenameKeepsShape(k);
    }
  }

  /** In every rewritten text that is not itself an id, each `{id@name}` keeps its place, its
      braces and its name, and refers to the new id; one that named a component names the
      renamed component. */
  lemma TextKeepsReferences(components: seq<Field>, s: string, i: nat)
    requires !IsKey(components, s) && RewriteComponents(IdMap(components), components).Done?
    requires i < |Tokens(Finding(), s)| && Tokens(Finding(), s)[i].Reference?
    ensures var ids := IdMap(components);
            var before, after := Tokens(Finding(), s), Tokens(Finding(), RewriteText(ids, s));
            && |after| == |before|
            && after[i] == Reference(before[i].ref.(id := Look(ids, before[i].ref.id)))
            && (IsKey(components, before[i].ref.id) ==>
                  && after[i].ref.id == Rename(before[i].ref.id)
                  && IsKey(RewriteComponents(ids, components).value, after[i].ref.id))
  {
    var ids := IdMap(components);
    IdMapKeepsShape(components);
    SubRenamesTokens(ids, s);
    var x := Tokens(Finding(), s)[i].ref.id;
    if IsKey(components, x) {
      NewKeys(Rewriter(ids), ids, components, Rename(x));
    }
  }

  // ---------------------------------------------------------------- ids of edges

  ghost predicate NoneOccurs(ids: seq<string>, s: string) {
    forall i | 0 <= i < |ids| && Legacy(ids[i]) :: !OccursIn(ids[i], s)
  }

  lemma ReplaceStep(ids: Ids, x: string, s: string)
    requires Renames(ids) && (Legacy(x) ==> !OccursIn(x, s))
    ensures Replace(s, x, Look(ids, x)) == s
  {
    RenameTwice(x);
    if Legacy(x) {
      Heads(x);
      ReplaceAbsent(s, x, Look(ids, x));
    } else if x == "" {
      ReplaceNothing(s);
    } else {
      ReplaceBySame(s, x);
    }
  }

  /** The id of an edge that mentions no renamed component stays as it is. */
  lemma {:induction false} EdgeIdKept(ids: Ids, sorted: seq<string>, s: string)
    requires Renames(ids) && NoneOccurs(sorted, s)
    ensures ReplaceAll(ids, sorted, s) == s
  {
    if sorted != [] {
      ReplaceStep(ids, sorted[0], s);
      assert forall i | 0 <= i < |sorted| - 1 :: sorted[1..][i] == sorted[i + 1];
      EdgeIdKept(ids, sorted[1..], s);
    }
  }

  /** `k` stands once in the text, and is the only renamed id in it. */
  ghost predicate Mentions(ids: seq<string>, s: string, k: string, n: nat) {
    && FirstAt(s, k, n) && n + |k| <= |s| && !OccursIn(k, s[n + |k|..])
    && forall i | 0 <= i < |ids| && Legacy(ids[i]) && ids[i] != k :: !OccursIn(ids[i], s)
  }

  lemma ReplaceMention(s: string, k: string, y: string, n: nat)
    requires k != "" && FirstAt(s, k, n) && n + |k| <= |s| && !OccursIn(k, s[n + |k|..])
    ensures Replace(s, k, y) == s[..n] + (y + s[n + |k|..])
  {
    ReplaceFirst(s, k, y, n, s[n + |k|..]);
    ReplaceAbsent(s[n + |k|..], k, y);
  }

  /** The id of an edge that mentions one renamed component, once, mentions it by its new id in the
      same place, provided that this brings no renamed id about. */
  lemma {:induction false} EdgeIdRenamed(ids: Ids, sorted: seq<string>, s: string, k: string, n: nat)
    requires Renames(ids) && k in ids && Legacy(k) && k in sorted && Mentions(sorted, s, k, n)
    requires NoneOccurs(sorted, s[..n] + (Rename(k) + s[n + |k|..]))
    ensures ReplaceAll(ids, sorted, s) == s[..n] + (Rename(k) + s[n + |k|..])
  {
    var t := s[..n] + (Rename(k) + s[n + |k|..]);
    var rest := sorted[1..];
    assert forall i | 0 <= i < |rest| :: rest[i] == sorted[i + 1];
    Heads(k);
    if sorted[0] == k {
      ReplaceMention(s, k, Rename(k), n);
      EdgeIdKept(ids, rest, t);
    } else {
      ReplaceStep(ids, sorted[0], s);
      EdgeIdRenamed(ids, rest, s, k, n);
    }
  }

  // ---------------------------------------------------------------- what makes it fail

  /** A component whose links can all be looked up, and its class too. */
  predicate Readable(component: Json) {
    component.Obj? ==>
      && LinksCurrent(component.fields, "downstream") && LinksCurrent(component.fields, "upstream")
      && match Get(component.fields, "obj")
         case Some(Obj(o)) => (match Get(o, "component_name") case Some(v) => Hashable(v) case None => true)
         case _ => true
  }

  lemma RewriteKeepsLinks(ids: Ids, fs: seq<Field>, key: string)
    ensures LinksCurrent(RewriteValue(ids, Obj(fs)).fields, key) <==> LinksCurrent(fs, key)
  {
    RewriteGet(ids, fs, key);
    match Get(fs, key)
    case Some(Arr(vs)) =>
      var ws := RewriteValue(ids, Arr(vs)).items;
      assert |ws| == |vs| && forall i | 0 <= i < |vs| :: Hashable(ws[i]) <==> Hashable(vs[i]);
    case _ =>
  }

  lemma ObjDoneIff(ids: Ids, fs: seq<Field>)
    ensures var gs := RewriteValue(ids, Obj(fs)).fields;
            RenameObj(gs).Done? <==>
            match Get(fs, "obj")
            case Some(Obj(o)) => (match Get(o, "component_name") case Some(v) => Hashable(v) case None => true)
            case _ => true
  {
    RewriteGet(ids, fs, "obj");
    match Get(fs, "obj")
    case Some(Obj(o)) => RewriteGet(ids, o, "component_name");
    case _ =>
  }

  lemma LinksDoneIff(ids: Ids, fs: seq<Field>)
    ensures (RelinkList(ids, fs, "downstream").Done? && RelinkList(ids, RelinkList(ids, fs, "downstream").value, "upstream").Done?) <==>
            LinksCurrent(fs, "downstream") && LinksCurrent(fs, "upstream")
  {
    if RelinkList(ids, fs, "downstream").Done? {
      RelinkListMakes(ids, fs, "downstream");
      Through(fs, RelinkList(ids, fs, "downstream").value, "downstream", "upstream");
    }
  }

  lemma ComponentDoneIff(ids: Ids, component: Json)
    ensures RewriteComponent(ids, component).Done? <==> Readable(component)
  {
    if component.Obj? {
      var v := RewriteValue(ids, component).fields;
      ObjDoneIff(ids, component.fields);
      RewriteKeepsLinks(ids, component.fields, "downstream");
      RewriteKeepsLinks(ids, component.fields, "upstream");
      if RenameObj(v).Done? {
        var a := RenameObj(v).value;
        RenameObjMakes(v);
        Through(v, a, "obj", "downstream");
        Through(v, a, "obj", "upstream");
        LinksDoneIff(ids, a);
      }
    }
  }

  ghost predicate AllRewrite(rewrite: Rewrite, components: seq<Field>) {
    forall i | 0 <= i < |components| :: rewrite(components[i].value).Done?
  }

  lemma AllRewriteSnoc(rewrite: Rewrite, components: seq<Field>)
    requires components != []
    ensures var n := |components| - 1;
            AllRewrite(rewrite, components) <==> AllRewrite(rewrite, components[..n]) && rewrite(components[n].value).Done?
  {
    var init := components[..|components| - 1];
    assert forall i | 0 <= i < |init| :: init[i] == components[i];
  }

  lemma {:induction false} RebuildDoneIff(rewrite: Rewrite, ids: Ids, components: seq<Field>)
    ensures Rebuild(rewrite, ids, components).Done? <==> AllRewrite(rewrite, components)
  {
    if components != [] {
      RebuildDoneIff(rewrite, ids, components[..|components| - 1]);
      AllRewriteSnoc(rewrite, components);
    }
  }

  /** The migration raises exactly when a list of links, the path, or a class holds a list or an
      object. */
  lemma MigratesIff(dsl: Json)
    requires HasComponents(dsl)
    ensures Normalize(dsl).Done? <==>
            && (forall i | 0 <= i < |Components(dsl)| :: Readable(Components(dsl)[i].value))
            && LinksCurrent(dsl.fields, "path")
  {
    var components := Components(dsl);
    var ids := IdMap(components);
    RebuildDoneIff(Rewriter(ids), ids, components);
    forall i | 0 <= i < |components| ensures Rewriter(ids)(components[i].value).Done? <==> Readable(components[i].value) {
      ComponentDoneIff(ids, components[i].value);
    }
    if RewriteComponents(ids, components).Done? {
      var rewritten := Obj(RewriteComponents(ids, components).value);
      PutOnlyAt(dsl.fields, "components", rewritten);
      Through(dsl.fields, Put(dsl.fields, "components", rewritten), "components", "path");
    }
  }

  // ---------------------------------------------------------------- business parameters

  /** The text is no renamed id and refers to none. */
  ghost predicate TextUntouched(ids: Ids, s: string) {
    if s in ids then ids[s] == s else NamesNone(ids, Tokens(Finding(), s))
  }

  ghost predicate Untouched(ids: Ids, v: Json) {
    match v
    case Str(s) => TextUntouched(ids, s)
    case Arr(items) => forall i | 0 <= i < |items| :: Untouched(ids, items[i])
    case Obj(fs) => forall i | 0 <= i < |fs| :: Untouched(ids, fs[i].value)
    case _ => true
  }

  lemma TextUnchangedIff(ids: Ids, s: string)
    requires KeepsShape(ids)
    ensures RewriteText(ids, s) == s <==> TextUntouched(ids, s)
  {
    SubUnchangedIff(ids, s);
  }

  /** A parameter value is left as it is exactly when no text in it is, or refers to, a renamed
      id. */
  lemma {:induction false} ValueUnchangedIff(ids: Ids, v: Json)
    requires KeepsShape(ids)
    ensures RewriteValue(ids, v) == v <==> Untouched(ids, v)
  {
    var w := RewriteValue(ids, v);
    match v
    case Str(s) => TextUnchangedIff(ids, s);
    case Arr(items) =>
      assert |w.items| == |items|;
      forall i | 0 <= i < |items| ensures w.items[i] == items[i] <==> Untouched(ids, items[i]) { ValueUnchangedIff(ids, items[i]); }
      assert w.items == items <==> forall i | 0 <= i < |items| :: w.items[i] == items[i];
    case Obj(fs) =>
      assert |w.fields| == |fs|;
      forall i | 0 <= i < |fs| ensures w.fields[i] == fs[i] <==> Untouched(ids, fs[i].value) { ValueUnchangedIff(ids, fs[i].value); }
      assert w.fields == fs <==> forall i | 0 <= i < |fs| :: w.fields[i] == fs[i];
    case _ =>
  }

  /** The runtime object keeps every parameter, rewritten in place, and only its class name is
      renamed. */
  lemma ObjRewritten(ids: Ids, component: Json, o: seq<Field>, key: string)
    requires RewriteComponent(ids, component).Done? && component.Obj? && Get(component.fields, "obj") == Some(Obj(o))
    ensures var out := RewriteComponent(ids, component).value;
            && out.Obj? && Get(out.fields, "obj").Some? && Get(out.fields, "obj").value.Obj?
            && var p := Get(out.fields, "obj").value.fields;
            && var q := RewriteValue(ids, Obj(o)).fields;
            && Get(p, "component_name") == Some(RenamedName(Get(q, "component_name")))
            && (key != "component_name" ==> Get(p, key) == Get(q, key))
  {
    var v := RewriteValue(ids, component).fields;
    RewriteGet(ids, component.fields, "obj");
    var q := RewriteValue(ids, Obj(o)).fields;
    assert Get(v, "obj") == Some(Obj(q));
    var a := RenameObj(v).value;
    RenameObjAt(v, q, key);
    var b := RelinkList(ids, a, "downstream").value;
    RelinkListMakes(ids, a, "downstream");
    Through(a, b, "downstream", "obj");
    var c := RelinkList(ids, b, "upstream").value;
    RelinkListMakes(ids, b, "upstream");
    Through(b, c, "upstream", "obj");
    RelinkOneMakes(ids, c, "parent_id");
    Through(c, RelinkOne(ids, c, "parent_id"), "parent_id", "obj");
  }

  function RenamedName(name: Option<Json>): Json {
    match name
    case Some(Str(s)) => Str(RenameName(s))
    case Some(v) => v
    case None => Null
  }

  lemma RenameObjAt(fs: seq<Field>, o: seq<Field>, key: string)
    requires RenameObj(fs).Done? && Get(fs, "obj") == Some(Obj(o))
    ensures var g := Get(RenameObj(fs).value, "obj");
            && g.Some? && g.value.Obj?
            && Get(g.value.fields, "component_name") == Some(RenamedName(Get(o, "component_name")))
            && (key != "component_name" ==> Get(g.value.fields, key) == Get(o, key))
  {
    var name := RenamedName(Get(o, "component_name"));
    PutGet(o, "component_name", name, "component_name");
    PutGet(o, "component_name", name, key);
    PutGet(fs, "obj", Obj(Put(o, "component_name", name)), "obj");
  }

  predicate Structural(key: string) {
    key == "components" || key == "path" || key == "graph" || key == "history" || key == "messages" || key == "reference"
  }

  /** Every other part of the DSL is kept as it is. */
  lemma RestIsKept(dsl: Json, key: string)
    requires HasComponents(dsl) && Normalize(dsl).Done? && !Structural(key)
    ensures Normalize(dsl).value.Obj? && Get(Normalize(dsl).value.fields, key) == Get(dsl.fields, key)
  {
    var ids, sorted := IdMap(Components(dsl)), ByLength(Components(dsl));
    var rewritten := Obj(RewriteComponents(ids, Components(dsl)).value);
    var top := Put(dsl.fields, "components", rewritten);
    PutGet(dsl.fields, "components", rewritten, key);
    var linked := RelinkList(ids, top, "path").value;
    RelinkListMakes(ids, top, "path");
    Through(top, linked, "path", key);
    var drawn := RewriteGraph(ids, sorted, linked);
    GraphMakes(ids, sorted, linked);
    Through(linked, drawn, "graph", key);
    FormsKeep(ids, drawn, key);
  }
}
