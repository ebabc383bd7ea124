/** Metadata filters as GaussDB predicates over a JSONB column
    (common/metadata_gaussdb_filter.py), under SQL's three-valued logic (section 8.12 of
    ISO/IEC 9075:1992) and with positional placeholders. */
module GaussFilter {
  import opened Text
  import opened Wrappers
  import opened FilterSyntax
  import opened Patterns

  datatype Json =
    | JNull
    | JBool(b: bool)
    | JNumber(n: real)
    | JText(s: string)
    | JArray(items: seq<Json>)
    | JObject(keys: seq<string>, values: seq<Json>)

  /** A row: the JSON value found under a metadata key, if the path exists. */
  type Row = string -> Option<Json>

  // ---------------------------------------------------------------- SQL predicates

  datatype Truth = True | False | Unknown

  datatype Param = TextParam(text: string) | JsonParam(json: Json)

  /** The predicates the translator writes. `TextIs`, `HasMember`, `Covers` and `TextLike`
      each contain one placeholder. */
  datatype Sql =
    | Always
    | Present(key: string)
    | Missing(key: string)
    | JsonIs(key: string, json: Json)
    | TextIs(key: string)
    | HasMember(key: string)
    | Covers(key: string)
    | TextLike(key: string)
    | AndAlso(left: Sql, right: Sql)
    | OrElse(left: Sql, right: Sql)
    | IsNotTrue(inner: Sql)

  function Slots(e: Sql): nat {
    match e
    case AndAlso(a, b) => Slots(a) + Slots(b)
    case OrElse(a, b) => Slots(a) + Slots(b)
    case IsNotTrue(a) => Slots(a)
    case TextIs(_) => 1
    case HasMember(_) => 1
    case Covers(_) => 1
    case TextLike(_) => 1
    case _ => 0
  }

  function Conj(a: Truth, b: Truth): Truth {
    if a == False || b == False then False else if a == True && b == True then True else Unknown
  }

  function Disj(a: Truth, b: Truth): Truth {
    if a == True || b == True then True else if a == False && b == False then False else Unknown
  }

  function Known(b: bool): Truth {
    if b then True else False
  }

  /** The truth tables of SQL: a conjunction is false as soon as one side is, a disjunction true as
      soon as one side is, and otherwise what is not known stays unknown. */
  lemma TruthTables(a: Truth, b: Truth)
    ensures Conj(a, b) == False <==> a == False || b == False
    ensures Conj(a, b) == True <==> a == True && b == True
    ensures Disj(a, b) == True <==> a == True || b == True
    ensures Disj(a, b) == False <==> a == False && b == False
  {
  }

  /** `column #>> path`: SQL NULL for a missing path and for JSON null. `show` writes a JSON
      value that is no text. */
  function TextOf(show: Json -> string, row: Row, key: string): Option<string> {
    match row(key)
    case None => None
    case Some(JNull) => None
    case Some(JText(s)) => Some(s)
    case Some(j) => Some(show(j))
  }

  /** `jsonb_exists`: a string as an array element, an object key, or the text itself. */
  predicate MemberOf(s: string, j: Json) {
    match j
    case JText(t) => t == s
    case JArray(items) => JText(s) in items
    case JObject(keys, _) => s in keys
    case _ => false
  }

  /** `@>` with a scalar on the right. */
  predicate CoversScalar(j: Json, scalar: Json) {
    j == scalar || (j.JArray? && scalar in j.items)
  }

  /** The truth value of a predicate for a row, its first placeholder bound to `params[at]`. */
  function Eval(show: Json -> string, e: Sql, row: Row, params: seq<Param>, at: nat): Truth
    requires at + Slots(e) <= |params|
  {
    match e
    case Always => True
    case Present(k) => Known(row(k).Some?)
    case Missing(k) => Known(row(k).None?)
    case JsonIs(k, j) => if row(k).None? then Unknown else Known(row(k).value == j)
    case TextIs(k) =>
      if TextOf(show, row, k).None? || !params[at].TextParam? then Unknown
      else Known(Lower(TextOf(show, row, k).value) == params[at].text)
    case HasMember(k) =>
      if row(k).None? || !params[at].TextParam? then Unknown else Known(MemberOf(params[at].text, row(k).value))
    case Covers(k) =>
      if row(k).None? || !params[at].JsonParam? then Unknown else Known(CoversScalar(row(k).value, params[at].json))
    case TextLike(k) =>
      if TextOf(show, row, k).None? || !params[at].TextParam? then Unknown
      else Known(Glob(LIKE, params[at].text, Lower(TextOf(show, row, k).value)))
    case AndAlso(a, b) => Conj(Eval(show, a, row, params, at), Eval(show, b, row, params, at + Slots(a)))
    case OrElse(a, b) => Disj(Eval(show, a, row, params, at), Eval(show, b, row, params, at + Slots(a)))
    case IsNotTrue(a) => Known(Eval(show, a, row, params, at) != True)
  }

  ghost predicate SameWindow(p: seq<Param>, at: nat, q: seq<Param>, from: nat, n: nat) {
    at + n <= |p| && from + n <= |q| && forall i | at <= i < at + n :: p[i] == q[i - at + from]
  }

  lemma WindowSplits(p: seq<Param>, at: nat, q: seq<Param>, from: nat, n: nat, m: nat)
    requires SameWindow(p, at, q, from, n + m)
    ensures SameWindow(p, at, q, from, n) && SameWindow(p, at + n, q, from + n, m)
  {
  }

  predicate Leaf(e: Sql) {
    !e.AndAlso? && !e.OrElse? && !e.IsNotTrue?
  }

  lemma LeafWindow(show: Json -> string, e: Sql, row: Row, p: seq<Param>, at: nat, q: seq<Param>, from: nat)
    requires Leaf(e) && SameWindow(p, at, q, from, Slots(e))
    ensures Eval(show, e, row, p, at) == Eval(show, e, row, q, from)
  {
    if Slots(e) == 1 {
      assert p[at] == q[at - at + from];
    }
  }

  /** Comparing with a value yields NULL exactly where there is nothing to compare with, and `IS NOT
      TRUE` never does. */
  lemma ComparisonIsNull(show: Json -> string, e: Sql, row: Row, p: seq<Param>)
    requires Slots(e) <= |p|
    ensures e.JsonIs? ==> (Eval(show, e, row, p, 0) == Unknown <==> row(e.key).None?)
    ensures e.TextIs? && p[0].TextParam? ==> (Eval(show, e, row, p, 0) == Unknown <==> row(e.key).None? || row(e.key) == Some(JNull))
    ensures e.TextLike? && p[0].TextParam? ==> (Eval(show, e, row, p, 0) == Unknown <==> row(e.key).None? || row(e.key) == Some(JNull))
    ensures e.HasMember? && p[0].TextParam? ==> (Eval(show, e, row, p, 0) == Unknown <==> row(e.key).None?)
    ensures e.IsNotTrue? ==> Eval(show, e, row, p, 0) != Unknown
  {
  }

  /** Only the parameters a predicate's own placeholders are bound to matter. */
  lemma {:induction false} EvalWindow(show: Json -> string, e: Sql, row: Row, p: seq<Param>, at: nat, q: seq<Param>, from: nat)
    requires SameWindow(p, at, q, from, Slots(e))
    ensures Eval(show, e, row, p, at) == Eval(show, e, row, q, from)
  {
    if e.AndAlso? || e.OrElse? {
      var n := Slots(e.left);
      assert Slots(e) == n + Slots(e.right);
      WindowSplits(p, at, q, from, n, Slots(e.right));
      EvalWindow(show, e.left, row, p, at, q, from);
      EvalWindow(show, e.right, row, p, at + n, q, from + n);
    } else if e.IsNotTrue? {
      EvalWindow(show, e.inner, row, p, at, q, from);
    } else {
      LeafWindow(show, e, row, p, at, q, from);
    }
  }

  // ---------------------------------------------------------------- translation

  /** A predicate together with its parameters, in the order of its placeholders. */
  datatype Bound = Bound(sql: Sql, params: seq<Param>) {
    ghost predicate Wf() {
      |params| == Slots(sql)
    }

    ghost function On(show: Json -> string, row: Row): Truth
      requires Wf()
    {
      Eval(show, sql, row, params, 0)
    }
  }

  datatype Value = Null | Bool(b: bool) | Number(n: real) | Text(s: string) | List(items: seq<Value>)

  /** Python's own parts: the literal parser and `str` of a value that is no text. */
  datatype Env = Env(parse: string -> Option<Value>, repr: Value -> string)

  /** No empty path segment and no NUL. */
  predicate ValidKey(key: string) {
    && key != "" && key[0] != '.' && key[|key| - 1] != '.' && '\0' !in key
    && forall i | 0 < i < |key| :: !(key[i] == '.' && key[i - 1] == '.')
  }

  function CoerceScalar(env: Env, v: Value): Result<Value> {
    match v
    case List(_) => Failed
    case Text(s) =>
      if Strip(s) == "" then Done(v)
      else (match env.parse(Strip(s))
            case Some(Null) => Done(Null)
            case Some(Bool(b)) => Done(Bool(b))
            case Some(Number(n)) => Done(Number(n))
            case _ => Done(v))
    case _ => Done(v)
  }

  /** Coercing what is coerced changes nothing. */
  lemma CoerceTwice(env: Env, v: Value)
    requires CoerceScalar(env, v).Done?
    ensures CoerceScalar(env, CoerceScalar(env, v).value) == CoerceScalar(env, v)
  {
  }

  function CoerceString(env: Env, v: Value): Result<string> {
    if v.Null? || v.List? then Failed
    else
      var text := if v.Text? then v.s else env.repr(v);
      if text == "" then Failed else Done(text)
  }

  function Texts(xs: seq<string>): seq<Value> {
    seq(|xs|, i requires 0 <= i < |xs| => Text(xs[i]))
  }

  /** The members of an `in` list, before coercion. */
  function RawMembers(env: Env, v: Value): Result<seq<Value>> {
    var members := match v
      case Null => []
      case List(items) => items
      case Text(s) => (match env.parse(Strip(s)) case Some(List(items)) => items case _ => Texts(SplitCommas(s, "")))
      case _ => [v];
    if members == [] then Failed else Done(members)
  }

  function CoerceAll(env: Env, vs: seq<Value>): Result<seq<Value>> {
    if vs == [] then Done([])
    else
      var n := |vs| - 1;
      var init :- CoerceAll(env, vs[..n]);
      var last :- CoerceScalar(env, vs[n]);
      Done(init + [last])
  }

  /** `coerce_membership_values`. Each member is coerced once more when it is compared. */
  function Members(env: Env, v: Value): Result<seq<Value>> {
    var raw :- RawMembers(env, v);
    CoerceAll(env, raw)
  }

  lemma {:induction false} CoerceAllEach(env: Env, vs: seq<Value>)
    ensures CoerceAll(env, vs).Done? <==> forall i | 0 <= i < |vs| :: CoerceScalar(env, vs[i]).Done?
    ensures CoerceAll(env, vs).Done? ==>
              && |CoerceAll(env, vs).value| == |vs|
              && forall i | 0 <= i < |vs| :: CoerceScalar(env, vs[i]) == Done(CoerceAll(env, vs).value[i])
  {
    if vs != [] {
      var n := |vs| - 1;
      CoerceAllEach(env, vs[..n]);
      assert forall i | 0 <= i < n :: vs[..n][i] == vs[i];
    }
  }

  /** A non-empty value has members, each coerced from its own raw member. */
  lemma MembersEach(env: Env, v: Value)
    requires Members(env, v).Done?
    ensures var raw, ms := RawMembers(env, v).value, Members(env, v).value;
            |ms| == |raw| > 0 && forall i | 0 <= i < |raw| :: CoerceScalar(env, raw[i]) == Done(ms[i])
  {
    CoerceAllEach(env, RawMembers(env, v).value);
  }

  /** `_equal_predicate` on a coerced scalar. */
  function EqualTo(key: string, v: Value): Bound {
    match v
    case Null => Bound(AndAlso(Present(key), JsonIs(key, JNull)), [])
    case Text(s) =>
      if s == "" then Bound(JsonIs(key, JText("")), [])
      else Bound(OrElse(TextIs(key), HasMember(key)), [TextParam(Lower(s)), TextParam(Lower(s))])
    case Bool(b) => Bound(Covers(key), [JsonParam(JBool(b))])
    case Number(n) => Bound(Covers(key), [JsonParam(JNumber(n))])
    case List(_) => Bound(Always, [])
  }

  function Equal(env: Env, key: string, v: Value): Result<Bound> {
    var scalar :- CoerceScalar(env, v);
    Done(EqualTo(key, scalar))
  }

  function Negated(key: string, b: Bound): Bound {
    Bound(AndAlso(Present(key), IsNotTrue(b.sql)), b.params)
  }

  /** `f1 OR f2 OR ...`, and `present AND f1 IS NOT TRUE AND f2 IS NOT TRUE ...`, over the
      members of a list. */
  function AnyMember(env: Env, key: string, members: seq<Value>): Result<Bound>
    requires members != []
  {
    var n := |members| - 1;
    var last :- Equal(env, key, members[n]);
    if n == 0 then Done(last)
    else
      var init :- AnyMember(env, key, members[..n]);
      Done(Bound(OrElse(init.sql, last.sql), init.params + last.params))
  }

  function NoMember(env: Env, key: string, members: seq<Value>): Result<Bound>
    requires members != []
  {
    var n := |members| - 1;
    var last :- Equal(env, key, members[n]);
    if n == 0 then Done(Negated(key, last))
    else
      var init :- NoMember(env, key, members[..n]);
      Done(Bound(AndAlso(init.sql, IsNotTrue(last.sql)), init.params + last.params))
  }

  function EscapeLike(t: string): string {
    EscapeByReplacing(LIKE, t)
  }

  function ContainsText(key: string, t: string): Bound {
    Bound(OrElse(HasMember(key), TextLike(key)), [TextParam(Lower(t)), TextParam("%" + EscapeLike(Lower(t)) + "%")])
  }

  function StartsWithText(key: string, t: string): Bound {
    Bound(TextLike(key), [TextParam(EscapeLike(Lower(t)) + "%")])
  }

  function EndsWithText(key: string, t: string): Bound {
    Bound(TextLike(key), [TextParam("%" + EscapeLike(Lower(t)))])
  }

  function IsEmpty(k: string): Sql {
    OrElse(OrElse(OrElse(OrElse(Missing(k), JsonIs(k, JNull)), JsonIs(k, JText(""))), JsonIs(k, JArray([]))), JsonIs(k, JObject([], [])))
  }

  function IsNotEmpty(k: string): Sql {
    AndAlso(AndAlso(AndAlso(AndAlso(Present(k), IsNotTrue(JsonIs(k, JNull))), IsNotTrue(JsonIs(k, JText("")))),
                    IsNotTrue(JsonIs(k, JArray([])))), IsNotTrue(JsonIs(k, JObject([], []))))
  }

  /** `GaussDBMetaFilterTranslator.translate`. */
  function Translate(env: Env, f: Filter<Value>): Result<Bound> {
    if !ValidKey(f.key) then Failed
    else
      var k := f.key;
      match f.op
      case Empty => Done(Bound(IsEmpty(k), []))
      case NotEmpty => Done(Bound(IsNotEmpty(k), []))
      case Eq => Equal(env, k, f.value)
      case Ne => var b :- Equal(env, k, f.value); Done(Negated(k, b))
      case In => var ms :- Members(env, f.value); MembersEach(env, f.value); AnyMember(env, k, ms)
      case NotIn => var ms :- Members(env, f.value); MembersEach(env, f.value); NoMember(env, k, ms)
      case Contains => var t :- CoerceString(env, f.value); Done(ContainsText(k, t))
      case NotContains => var t :- CoerceString(env, f.value); Done(Negated(k, ContainsText(k, t)))
      case StartWith => var t :- CoerceString(env, f.value); Done(StartsWithText(k, t))
      case EndWith => var t :- CoerceString(env, f.value); Done(EndsWithText(k, t))
  }

  // ---------------------------------------------------------------- placeholders

  lemma NegatedWf(key: string, b: Bound)
    requires b.Wf()
    ensures Negated(key, b).Wf()
  {
    assert Slots(IsNotTrue(b.sql)) == Slots(b.sql) && Slots(Present(key)) == 0;
  }

  lemma EqualToWf(key: string, v: Value)
    ensures EqualTo(key, v).Wf()
  {
    assert Slots(TextIs(key)) == Slots(HasMember(key)) == 1;
    assert Slots(Present(key)) == Slots(JsonIs(key, JNull)) == 0;
  }

  lemma JoinedWf(a: Bound, b: Bound)
    requires a.Wf() && b.Wf()
    ensures Bound(OrElse(a.sql, b.sql), a.params + b.params).Wf()
    ensures Bound(AndAlso(a.sql, IsNotTrue(b.sql)), a.params + b.params).Wf()
  {
    assert Slots(IsNotTrue(b.sql)) == Slots(b.sql);
  }

  lemma {:induction false} MembersWf(env: Env, key: string, members: seq<Value>)
    requires members != []
    ensures AnyMember(env, key, members).Done? <==> NoMember(env, key, members).Done?
    ensures AnyMember(env, key, members).Done? ==> AnyMember(env, key, members).value.Wf() && NoMember(env, key, members).value.Wf()
  {
    var n := |members| - 1;
    if Equal(env, key, members[n]).Done? {
      var last := Equal(env, key, members[n]).value;
      EqualToWf(key, CoerceScalar(env, members[n]).value);
      if n > 0 {
        MembersWf(env, key, members[..n]);
        if AnyMember(env, key, members[..n]).Done? {
          JoinedWf(AnyMember(env, key, members[..n]).value, last);
          JoinedWf(NoMember(env, key, members[..n]).value, last);
        }
      } else {
        NegatedWf(key, last);
      }
    }
  }

  /** Every translated filter carries exactly one parameter per placeholder. */
  lemma TranslateWf(env: Env, f: Filter<Value>)
    requires Translate(env, f).Done?
    ensures Translate(env, f).value.Wf()
  {
    var b, k := Translate(env, f).value, f.key;
    match f.op
    case In =>
      MembersEach(env, f.value);
      MembersWf(env, k, Members(env, f.value).value);
    case NotIn =>
      MembersEach(env, f.value);
      MembersWf(env, k, Members(env, f.value).value);
    case Eq => EqualToWf(k, CoerceScalar(env, f.value).value);
    case Ne =>
      EqualToWf(k, CoerceScalar(env, f.value).value);
      NegatedWf(k, Equal(env, k, f.value).value);
    case Contains => ContainsWf(k, CoerceString(env, f.value).value);
    case NotContains =>
      ContainsWf(k, CoerceString(env, f.value).value);
      NegatedWf(k, ContainsText(k, CoerceString(env, f.value).value));
    case Empty => EmptyWf(k);
    case NotEmpty => EmptyWf(k);
    case StartWith =>
    case EndWith =>
  }

  lemma ContainsWf(key: string, t: string)
    ensures ContainsText(key, t).Wf()
  {
    assert Slots(HasMember(key)) == Slots(TextLike(key)) == 1;
  }

  lemma EmptyWf(key: string)
    ensures Bound(IsEmpty(key), []).Wf() && Bound(IsNotEmpty(key), []).Wf()
  {
    IsEmptyOn(_ => "", key, _ => None);
    IsNotEmptyOn(_ => "", key, _ => None);
  }

  /** A compound predicate evaluates each part with the part's own parameters. */
  lemma CompoundOn(show: Json -> string, a: Bound, b: Bound, row: Row)
    requires a.Wf() && b.Wf()
    ensures Bound(AndAlso(a.sql, b.sql), a.params + b.params).Wf() && Bound(OrElse(a.sql, b.sql), a.params + b.params).Wf()
    ensures Bound(AndAlso(a.sql, b.sql), a.params + b.params).On(show, row) == Conj(a.On(show, row), b.On(show, row))
    ensures Bound(OrElse(a.sql, b.sql), a.params + b.params).On(show, row) == Disj(a.On(show, row), b.On(show, row))
  {
    var all := a.params + b.params;
    assert SameWindow(all, 0, a.params, 0, Slots(a.sql));
    assert SameWindow(all, Slots(a.sql), b.params, 0, Slots(b.sql));
    EvalWindow(show, a.sql, row, all, 0, a.params, 0);
    EvalWindow(show, b.sql, row, all, Slots(a.sql), b.params, 0);
  }

  // ---------------------------------------------------------------- negative predicates

  /** The guarded negation is never unknown: it is the exact complement of the positive form
      on rows that have the key, and false where the key is missing. */
  lemma NegatedOn(show: Json -> string, key: string, b: Bound, row: Row)
    requires b.Wf()
    ensures Negated(key, b).Wf()
    ensures Negated(key, b).On(show, row) == Known(row(key).Some? && b.On(show, row) != True)
  {
    NegatedWf(key, b);
    assert Slots(Present(key)) == 0;
    assert Eval(show, Present(key), row, b.params, 0) == Known(row(key).Some?);
    assert Eval(show, IsNotTrue(b.sql), row, b.params, 0) == Known(b.On(show, row) != True);
  }

  lemma {:induction false} NoMemberOn(show: Json -> string, env: Env, key: string, members: seq<Value>, row: Row)
    requires members != [] && AnyMember(env, key, members).Done?
    ensures NoMember(env, key, members).Done?
    ensures AnyMember(env, key, members).value.Wf() && NoMember(env, key, members).value.Wf()
    ensures NoMember(env, key, members).value.On(show, row) ==
            Known(row(key).Some? && AnyMember(env, key, members).value.On(show, row) != True)
  {
    MembersWf(env, key, members);
    var n := |members| - 1;
    var last := Equal(env, key, members[n]).value;
    if n == 0 {
      NegatedOn(show, key, last, row);
    } else {
      NoMemberOn(show, env, key, members[..n], row);
      var some, none := AnyMember(env, key, members[..n]).value, NoMember(env, key, members[..n]).value;
      CompoundOn(show, some, last, row);
      CompoundOn(show, none, Bound(IsNotTrue(last.sql), last.params), row);
    }
  }

  /** `not equal`, `not in` and `not contains` are translatable exactly when their positive
      forms are, never evaluate to NULL, and complement them on rows that have the key. */
  lemma NegativeComplementsPositive(show: Json -> string, env: Env, f: Filter<Value>, row: Row)
    requires f.op == Ne || f.op == NotIn || f.op == NotContains
    ensures var p := Filter(f.key, Positive(f.op), f.value);
            && (Translate(env, f).Done? <==> Translate(env, p).Done?)
            && (Translate(env, f).Done? ==>
                  && Translate(env, f).value.Wf() && Translate(env, p).value.Wf()
                  && Translate(env, f).value.On(show, row) ==
                     Known(row(f.key).Some? && Translate(env, p).value.On(show, row) != True))
  {
    var p := Filter(f.key, Positive(f.op), f.value);
    if ValidKey(f.key) && f.op == NotIn && Members(env, f.value).Done? {
      MembersEach(env, f.value);
      MembersWf(env, f.key, Members(env, f.value).value);
    }
    if Translate(env, p).Done? {
      TranslateWf(env, p);
      if f.op == NotIn {
        NoMemberOn(show, env, f.key, Members(env, f.value).value, row);
      } else {
        NegatedOn(show, f.key, Translate(env, p).value, row);
      }
    }
  }

  ghost predicate MatchesMember(show: Json -> string, env: Env, key: string, member: Value, row: Row) {
    var b := Equal(env, key, member);
    b.Done? && b.value.Wf() && b.value.On(show, row) == True
  }

  ghost predicate MatchesSome(show: Json -> string, env: Env, key: string, members: seq<Value>, row: Row) {
    exists i | 0 <= i < |members| :: MatchesMember(show, env, key, members[i], row)
  }

  lemma MatchesSomeSnoc(show: Json -> string, env: Env, key: string, members: seq<Value>, row: Row)
    requires members != []
    ensures var n := |members| - 1;
            MatchesSome(show, env, key, members, row) <==>
            MatchesSome(show, env, key, members[..n], row) || MatchesMember(show, env, key, members[n], row)
  {
    var init := members[..|members| - 1];
    assert forall i | 0 <= i < |init| :: init[i] == members[i];
  }

  /** `in` holds exactly when `=` holds for some member. */
  lemma {:induction false} AnyMemberOn(show: Json -> string, env: Env, key: string, members: seq<Value>, row: Row)
    requires members != [] && AnyMember(env, key, members).Done?
    ensures AnyMember(env, key, members).value.Wf()
    ensures AnyMember(env, key, members).value.On(show, row) == True <==> MatchesSome(show, env, key, members, row)
  {
    MembersWf(env, key, members);
    var n := |members| - 1;
    var last := Equal(env, key, members[n]).value;
    EqualToWf(key, CoerceScalar(env, members[n]).value);
    MatchesSomeSnoc(show, env, key, members, row);
    if n == 0 {
      assert AnyMember(env, key, members) == Done(last) && !MatchesSome(show, env, key, members[..n], row);
    } else {
      AnyMemberOn(show, env, key, members[..n], row);
      CompoundOn(show, AnyMember(env, key, members[..n]).value, last, row);
    }
  }

  /** `=` with a text: the stored text in any case, or a member written in lower case. */
  lemma EqualTextOn(show: Json -> string, key: string, t: string, row: Row)
    requires t != ""
    ensures EqualTo(key, Text(t)).Wf()
    ensures EqualTo(key, Text(t)).On(show, row) == True <==>
            && row(key).Some?
            && ((TextOf(show, row, key).Some? && Lower(TextOf(show, row, key).value) == Lower(t)) || MemberOf(Lower(t), row(key).value))
  {
    EqualToWf(key, Text(t));
    var b := EqualTo(key, Text(t));
    assert Slots(b.sql.left) == 1;
    assert b.On(show, row) == Disj(Eval(show, TextIs(key), row, b.params, 0), Eval(show, HasMember(key), row, b.params, 1));
  }

  // ---------------------------------------------------------------- empty values

  /** Predicates without placeholders. */
  lemma PlainOr(show: Json -> string, a: Sql, b: Sql, row: Row)
    requires Slots(a) == 0 && Slots(b) == 0
    ensures Slots(OrElse(a, b)) == 0
    ensures Eval(show, OrElse(a, b), row, [], 0) == Disj(Eval(show, a, row, [], 0), Eval(show, b, row, [], 0))
  {
  }

  lemma PlainAnd(show: Json -> string, a: Sql, b: Sql, row: Row)
    requires Slots(a) == 0 && Slots(b) == 0
    ensures Slots(AndAlso(a, b)) == 0
    ensures Eval(show, AndAlso(a, b), row, [], 0) == Conj(Eval(show, a, row, [], 0), Eval(show, b, row, [], 0))
  {
  }

  lemma PlainJson(show: Json -> string, key: string, j: Json, row: Row)
    ensures Slots(JsonIs(key, j)) == 0 && Slots(IsNotTrue(JsonIs(key, j))) == 0
    ensures Eval(show, JsonIs(key, j), row, [], 0) == if row(key).None? then Unknown else Known(row(key).value == j)
    ensures Eval(show, IsNotTrue(JsonIs(key, j)), row, [], 0) == Known(row(key) != Some(j))
  {
  }

  /** One more value that counts as empty. */
  lemma OrJson(show: Json -> string, e: Sql, key: string, j: Json, row: Row)
    requires Slots(e) == 0
    ensures Slots(OrElse(e, JsonIs(key, j))) == 0
    ensures Eval(show, OrElse(e, JsonIs(key, j)), row, [], 0) ==
            Disj(Eval(show, e, row, [], 0), if row(key).None? then Unknown else Known(row(key).value == j))
  {
    PlainJson(show, key, j, row);
    PlainOr(show, e, JsonIs(key, j), row);
  }

  lemma AndNotJson(show: Json -> string, n: Sql, key: string, j: Json, row: Row)
    requires Slots(n) == 0
    ensures Slots(AndAlso(n, IsNotTrue(JsonIs(key, j)))) == 0
    ensures Eval(show, AndAlso(n, IsNotTrue(JsonIs(key, j))), row, [], 0) ==
            Conj(Eval(show, n, row, [], 0), Known(row(key) != Some(j)))
  {
    PlainJson(show, key, j, row);
    PlainAnd(show, n, IsNotTrue(JsonIs(key, j)), row);
  }

  predicate EmptyValue(v: Option<Json>) {
    v == None || v == Some(JNull) || v == Some(JText("")) || v == Some(JArray([])) || v == Some(JObject([], []))
  }

  lemma IsEmptyOn(show: Json -> string, k: string, row: Row)
    ensures Slots(IsEmpty(k)) == 0 && Eval(show, IsEmpty(k), row, [], 0) == Known(EmptyValue(row(k)))
  {
    var a := Missing(k);
    OrJson(show, a, k, JNull, row);
    var b := OrElse(a, JsonIs(k, JNull));
    OrJson(show, b, k, JText(""), row);
    var c := OrElse(b, JsonIs(k, JText("")));
    OrJson(show, c, k, JArray([]), row);
    OrJson(show, OrElse(c, JsonIs(k, JArray([]))), k, JObject([], []), row);
  }

  lemma IsNotEmptyOn(show: Json -> string, k: string, row: Row)
    ensures Slots(IsNotEmpty(k)) == 0 && Eval(show, IsNotEmpty(k), row, [], 0) == Known(!EmptyValue(row(k)))
  {
    var a := Present(k);
    AndNotJson(show, a, k, JNull, row);
    var b := AndAlso(a, IsNotTrue(JsonIs(k, JNull)));
    AndNotJson(show, b, k, JText(""), row);
    var c := AndAlso(b, IsNotTrue(JsonIs(k, JText(""))));
    AndNotJson(show, c, k, JArray([]), row);
    AndNotJson(show, AndAlso(c, IsNotTrue(JsonIs(k, JArray([])))), k, JObject([], []), row);
  }

  /** `empty` and `not empty` are never NULL and partition all rows. */
  lemma EmptyPartitions(show: Json -> string, key: string, row: Row)
    ensures var e, n := Bound(IsEmpty(key), []), Bound(IsNotEmpty(key), []);
            && e.Wf() && n.Wf()
            && e.On(show, row) == Known(EmptyValue(row(key)))
            && n.On(show, row) == Known(!EmptyValue(row(key)))
  {
    IsEmptyOn(show, key, row);
    IsNotEmptyOn(show, key, row);
  }

  // ---------------------------------------------------------------- text predicates

  lemma LikeEscape(t: string)
    ensures EscapeLike(Lower(t)) == Escape(LIKE, Lower(t))
  {
    EscapesAgree(LIKE, Lower(t));
  }

  lemma LikeOn(show: Json -> string, key: string, p: string, row: Row)
    ensures var text := TextOf(show, row, key);
            Bound(TextLike(key), [TextParam(p)]).On(show, row) == if text.None? then Unknown else Known(Glob(LIKE, p, Lower(text.value)))
  {
  }

  /** The LIKE filters mean prefix, suffix and substring, for every text the user may give. */
  lemma StartsWithOn(show: Json -> string, key: string, t: string, row: Row)
    ensures var text := TextOf(show, row, key);
            && StartsWithText(key, t).Wf()
            && StartsWithText(key, t).On(show, row) == if text.None? then Unknown else Known(Lower(t) <= Lower(text.value))
  {
    LikeEscape(t);
    assert "%" == [LIKE.any];
    LikeOn(show, key, EscapeLike(Lower(t)) + "%", row);
    var text := TextOf(show, row, key);
    if text.Some? { PrefixPattern(LIKE, Lower(t), Lower(text.value)); }
  }

  lemma EndsWithOn(show: Json -> string, key: string, t: string, row: Row)
    ensures var text := TextOf(show, row, key);
            && EndsWithText(key, t).Wf()
            && EndsWithText(key, t).On(show, row) == if text.None? then Unknown else Known(EndsWith(Lower(text.value), Lower(t)))
  {
    LikeEscape(t);
    assert "%" == [LIKE.any];
    LikeOn(show, key, "%" + EscapeLike(Lower(t)), row);
    var text := TextOf(show, row, key);
    if text.Some? { SuffixPattern(LIKE, Lower(t), Lower(text.value)); }
  }

  ghost predicate ContainsMeans(show: Json -> string, key: string, t: string, row: Row) {
    var text := TextOf(show, row, key);
    row(key).Some? && (MemberOf(Lower(t), row(key).value) || (text.Some? && OccursIn(Lower(t), Lower(text.value))))
  }

  lemma ContainsOn(show: Json -> string, key: string, t: string, row: Row)
    ensures ContainsText(key, t).Wf() && (ContainsText(key, t).On(show, row) == True <==> ContainsMeans(show, key, t, row))
  {
    var p := "%" + EscapeLike(Lower(t)) + "%";
    var member, like := Bound(HasMember(key), [TextParam(Lower(t))]), Bound(TextLike(key), [TextParam(p)]);
    assert member.Wf() && like.Wf() && ContainsText(key, t) == Bound(OrElse(member.sql, like.sql), member.params + like.params);
    CompoundOn(show, member, like, row);
    LikeEscape(t);
    assert "%" == [LIKE.any];
    LikeOn(show, key, p, row);
    var text := TextOf(show, row, key);
    if text.Some? { InfixPattern(LIKE, Lower(t), Lower(text.value)); }
  }

  // ---------------------------------------------------------------- plans

  /** `GaussDBFilterPlan.to_predicate`. */
  function Joined(logic: Logic, items: seq<Bound>): Bound {
    if items == [] then Bound(Always, [])
    else if |items| == 1 then items[0]
    else
      var n := |items| - 1;
      var init := Joined(logic, items[..n]);
      Bound(if logic == And then AndAlso(init.sql, items[n].sql) else OrElse(init.sql, items[n].sql), init.params + items[n].params)
  }

  method ToPredicate(logic: Logic, items: seq<Bound>) returns (b: Bound)
    ensures b == Joined(logic, items)
  {
    if items == [] {
      return Bound(Always, []);
    }
    b := items[0];
    for i := 1 to |items|
      invariant b == Joined(logic, items[..i])
    {
      assert items[..i + 1][..i] == items[..i];
      var sql := if logic == And then AndAlso(b.sql, items[i].sql) else OrElse(b.sql, items[i].sql);
      b := Bound(sql, b.params + items[i].params);
    }
    assert items[..|items|] == items;
  }

  ghost predicate AllWf(items: seq<Bound>) {
    forall i | 0 <= i < |items| :: items[i].Wf()
  }

  ghost predicate AllTrue(show: Json -> string, items: seq<Bound>, row: Row)
    requires AllWf(items)
  {
    forall i | 0 <= i < |items| :: items[i].On(show, row) == True
  }

  ghost predicate SomeTrue(show: Json -> string, items: seq<Bound>, row: Row)
    requires AllWf(items)
  {
    exists i | 0 <= i < |items| :: items[i].On(show, row) == True
  }

  lemma TrueSnoc(show: Json -> string, items: seq<Bound>, row: Row)
    requires items != [] && AllWf(items)
    ensures var n := |items| - 1;
            && AllWf(items[..n]) && items[n].Wf()
            && (AllTrue(show, items, row) <==> AllTrue(show, items[..n], row) && items[n].On(show, row) == True)
            && (SomeTrue(show, items, row) <==> SomeTrue(show, items[..n], row) || items[n].On(show, row) == True)
  {
    var init := items[..|items| - 1];
    assert forall i | 0 <= i < |init| :: init[i] == items[i];
  }

  lemma JoinedStep(show: Json -> string, logic: Logic, items: seq<Bound>, row: Row)
    requires |items| > 1 && AllWf(items) && Joined(logic, items[..|items| - 1]).Wf()
    ensures var n := |items| - 1;
            && items[n].Wf() && Joined(logic, items).Wf()
            && var init, last := Joined(logic, items[..n]).On(show, row), items[n].On(show, row);
            && Joined(logic, items).On(show, row) == if logic == And then Conj(init, last) else Disj(init, last)
  {
    var n := |items| - 1;
    assert items[n].Wf();
    CompoundOn(show, Joined(logic, items[..n]), items[n], row);
  }

  /** In any plan the placeholders and the concatenated parameters line up, each part sees its
      own parameters, and the row is selected exactly when all (or some) parts are true. */
  lemma {:induction false} PlanBindsItsParameters(show: Json -> string, logic: Logic, items: seq<Bound>, row: Row)
    requires AllWf(items)
    ensures Joined(logic, items).Wf()
    ensures Joined(logic, items).On(show, row) == True <==>
            if items == [] || logic == And then AllTrue(show, items, row) else SomeTrue(show, items, row)
  {
    if |items| == 1 {
      assert items[0].Wf();
    } else if items != [] {
      PlanBindsItsParameters(show, logic, items[..|items| - 1], row);
      TrueSnoc(show, items, row);
      JoinedStep(show, logic, items, row);
    }
  }

  ghost predicate Accepts(show: Json -> string, env: Env, f: Filter<Value>, row: Row) {
    var t := Translate(env, f);
    t.Done? && t.value.Wf() && t.value.On(show, row) == True
  }

  /** What a filter list asks of a row, each filter judged on its own. */
  ghost predicate AcceptsAll(show: Json -> string, env: Env, filters: seq<Filter<Value>>, logic: Logic, row: Row) {
    if filters == [] then true
    else if logic == And then forall i | 0 <= i < |filters| :: Accepts(show, env, filters[i], row)
    else exists i | 0 <= i < |filters| :: Accepts(show, env, filters[i], row)
  }

  /** `build_gaussdb_filter`: the one predicate with its one parameter list selects exactly the
      rows that the filters, each with its own parameters, select together. */
  method BuildFilter(env: Env, filters: seq<Filter<Value>>, logic: Logic) returns (r: Result<Bound>)
    ensures r.Done? <==> forall i | 0 <= i < |filters| :: Translate(env, filters[i]).Done?
    ensures r.Done? ==> r.value.Wf()
    ensures r.Done? ==> forall show, row :: r.value.On(show, row) == True <==> AcceptsAll(show, env, filters, logic, row)
  {
    var items: seq<Bound> := [];
    for n := 0 to |filters|
      invariant |items| == n && forall i | 0 <= i < n :: Translate(env, filters[i]) == Done(items[i])
    {
      var t := Translate(env, filters[n]);
      if t.Failed? {
        return Failed;
      }
      items := items + [t.value];
    }
    forall i | 0 <= i < |items| ensures items[i].Wf() {
      TranslateWf(env, filters[i]);
    }
    var b := ToPredicate(logic, items);
    PlanBindsItsParameters(_ => "", logic, items, _ => None);
    forall show, row ensures b.On(show, row) == True <==> AcceptsAll(show, env, filters, logic, row) {
      PlanBindsItsParameters(show, logic, items, row);
      forall i | 0 <= i < |items| ensures Accepts(show, env, filters[i], row) <==> items[i].On(show, row) == True {
        assert items[i].Wf();
      }
    }
    r := Done(b);
  }

  /** `=` on a coerced member is `=` on the member as the user wrote it. */
  lemma MemberIsEqual(show: Json -> string, env: Env, key: string, raw: Value, coerced: Value, row: Row)
    requires ValidKey(key) && CoerceScalar(env, raw) == Done(coerced)
    ensures Equal(env, key, coerced) == Equal(env, key, raw) == Translate(env, Filter(key, Eq, raw)) && Equal(env, key, raw).Done?
    ensures MatchesMember(show, env, key, coerced, row) <==> Accepts(show, env, Filter(key, Eq, raw), row)
  {
    CoerceTwice(env, raw);
  }

  ghost predicate AcceptsSome(show: Json -> string, env: Env, key: string, raw: seq<Value>, row: Row) {
    exists i | 0 <= i < |raw| :: Accepts(show, env, Filter(key, Eq, raw[i]), row)
  }

  lemma MembersAccept(show: Json -> string, env: Env, key: string, raw: seq<Value>, ms: seq<Value>, row: Row)
    requires ValidKey(key) && |ms| == |raw| > 0 && forall i | 0 <= i < |raw| :: CoerceScalar(env, raw[i]) == Done(ms[i])
    ensures AnyMember(env, key, ms).Done?
    ensures MatchesSome(show, env, key, ms, row) <==> AcceptsSome(show, env, key, raw, row)
  {
    forall i | 0 <= i < |raw|
      ensures Equal(env, key, ms[i]).Done?
      ensures MatchesMember(show, env, key, ms[i], row) <==> Accepts(show, env, Filter(key, Eq, raw[i]), row)
    {
      MemberIsEqual(show, env, key, raw[i], ms[i], row);
    }
    AllDone(env, key, ms);
  }

  /** `in` is translatable exactly when all its members are. */
  lemma InTranslatable(env: Env, key: string, v: Value)
    requires ValidKey(key) && RawMembers(env, v).Done?
    ensures var raw := RawMembers(env, v).value;
            Translate(env, Filter(key, In, v)).Done? <==> forall i | 0 <= i < |raw| :: Translate(env, Filter(key, Eq, raw[i])).Done?
  {
    var raw := RawMembers(env, v).value;
    CoerceAllEach(env, raw);
    assert forall i | 0 <= i < |raw| :: Translate(env, Filter(key, Eq, raw[i])).Done? <==> CoerceScalar(env, raw[i]).Done?;
    if Members(env, v).Done? {
      MembersEach(env, v);
      MembersAccept(_ => "", env, key, raw, Members(env, v).value, _ => None);
    }
  }

  /** `in` accepts a row exactly when `=` accepts it for some member as the user wrote it. */
  lemma InIsSomeEqual(show: Json -> string, env: Env, key: string, v: Value, row: Row)
    requires ValidKey(key) && RawMembers(env, v).Done? && Translate(env, Filter(key, In, v)).Done?
    ensures Accepts(show, env, Filter(key, In, v), row) <==> AcceptsSome(show, env, key, RawMembers(env, v).value, row)
  {
    MembersEach(env, v);
    var ms := Members(env, v).value;
    MembersAccept(show, env, key, RawMembers(env, v).value, ms, row);
    AnyMemberOn(show, env, key, ms, row);
  }

  lemma {:induction false} AllDone(env: Env, key: string, members: seq<Value>)
    requires members != [] && forall i | 0 <= i < |members| :: Equal(env, key, members[i]).Done?
    ensures AnyMember(env, key, members).Done?
  {
    if |members| > 1 { AllDone(env, key, members[..|members| - 1]); }
  }

  lemma AcceptsIs(show: Json -> string, env: Env, f: Filter<Value>, b: Bound, row: Row)
    requires Translate(env, f) == Done(b) && b.Wf()
    ensures Accepts(show, env, f, row) <==> b.On(show, row) == True
  {
  }

  lemma TextTranslates(env: Env, key: string, t: string)
    requires ValidKey(key) && t != ""
    ensures Translate(env, Filter(key, Contains, Text(t))) == Done(ContainsText(key, t))
    ensures Translate(env, Filter(key, StartWith, Text(t))) == Done(StartsWithText(key, t))
    ensures Translate(env, Filter(key, EndWith, Text(t))) == Done(EndsWithText(key, t))
  {
  }

  // ---------------------------------------------------------------- what `=` and `in` read

  /** The stored value is that scalar, or a list that holds it. */
  predicate Holds(row: Row, key: string, scalar: Json) {
    match row(key)
    case None => false
    case Some(j) => j == scalar || (j.JArray? && scalar in j.items)
  }

  lemma ScalarOn(show: Json -> string, key: string, v: Value, row: Row)
    requires v.Bool? || v.Number? || v.Null? || v == Text("")
    ensures EqualTo(key, v).Wf()
    ensures v.Number? ==> (EqualTo(key, v).On(show, row) == True <==> Holds(row, key, JNumber(v.n)))
    ensures v.Bool? ==> (EqualTo(key, v).On(show, row) == True <==> Holds(row, key, JBool(v.b)))
    ensures v.Null? ==> (EqualTo(key, v).On(show, row) == True <==> row(key) == Some(JNull))
    ensures v == Text("") ==> (EqualTo(key, v).On(show, row) == True <==> row(key) == Some(JText("")))
  {
    EqualToWf(key, v);
    if v.Null? {
      PlainJson(show, key, JNull, row);
      PlainAnd(show, Present(key), JsonIs(key, JNull), row);
    }
  }

  lemma EqualAccepts(show: Json -> string, env: Env, key: string, raw: Value, v: Value, row: Row)
    requires ValidKey(key) && CoerceScalar(env, raw) == Done(v)
    ensures Accepts(show, env, Filter(key, Eq, raw), row) <==> EqualTo(key, v).Wf() && EqualTo(key, v).On(show, row) == True
  {
    EqualToWf(key, v);
  }

  /** `=` with a number or a truth value finds it as it is stored and in lists, whether it was given
      as such or as a text that Python reads as one. */
  lemma EqFindsScalars(show: Json -> string, env: Env, key: string, s: string, n: real, b: bool, row: Row)
    requires ValidKey(key)
    ensures Accepts(show, env, Filter(key, Eq, Number(n)), row) <==> Holds(row, key, JNumber(n))
    ensures Accepts(show, env, Filter(key, Eq, Bool(b)), row) <==> Holds(row, key, JBool(b))
    ensures Strip(s) != "" && env.parse(Strip(s)) == Some(Number(n)) ==>
              (Accepts(show, env, Filter(key, Eq, Text(s)), row) <==> Holds(row, key, JNumber(n)))
    ensures Strip(s) != "" && env.parse(Strip(s)) == Some(Bool(b)) ==>
              (Accepts(show, env, Filter(key, Eq, Text(s)), row) <==> Holds(row, key, JBool(b)))
  {
    ScalarOn(show, key, Number(n), row);
    ScalarOn(show, key, Bool(b), row);
    EqualAccepts(show, env, key, Number(n), Number(n), row);
    EqualAccepts(show, env, key, Bool(b), Bool(b), row);
    if Strip(s) != "" && env.parse(Strip(s)) == Some(Number(n)) { EqualAccepts(show, env, key, Text(s), Number(n), row); }
    if Strip(s) != "" && env.parse(Strip(s)) == Some(Bool(b)) { EqualAccepts(show, env, key, Text(s), Bool(b), row); }
  }

  /** `=` with nothing, or with the text `None`, finds JSON null; with an empty text the empty text. */
  lemma EqFindsNothing(show: Json -> string, env: Env, key: string, s: string, row: Row)
    requires ValidKey(key)
    ensures Accepts(show, env, Filter(key, Eq, Null), row) <==> row(key) == Some(JNull)
    ensures Strip(s) != "" && env.parse(Strip(s)) == Some(Null) ==>
              (Accepts(show, env, Filter(key, Eq, Text(s)), row) <==> row(key) == Some(JNull))
    ensures Accepts(show, env, Filter(key, Eq, Text("")), row) <==> row(key) == Some(JText(""))
  {
    ScalarOn(show, key, Null, row);
    ScalarOn(show, key, Text(""), row);
    EqualAccepts(show, env, key, Null, Null, row);
    EqualAccepts(show, env, key, Text(""), Text(""), row);
    if Strip(s) != "" && env.parse(Strip(s)) == Some(Null) { EqualAccepts(show, env, key, Text(s), Null, row); }
  }

  /** A text that Python reads as nothing scalar is looked for as it is. */
  lemma EqFindsText(show: Json -> string, env: Env, key: string, t: string, row: Row)
    requires ValidKey(key) && t != ""
    requires Strip(t) == "" || env.parse(Strip(t)).None? || env.parse(Strip(t)).value.Text? || env.parse(Strip(t)).value.List?
    ensures Accepts(show, env, Filter(key, Eq, Text(t)), row) <==>
            && row(key).Some?
            && ((TextOf(show, row, key).Some? && Lower(TextOf(show, row, key).value) == Lower(t)) || MemberOf(Lower(t), row(key).value))
  {
    EqualTextOn(show, key, t, row);
    EqualAccepts(show, env, key, Text(t), Text(t), row);
  }

  /** A text given to `in` stands for the parts between its commas, unless Python reads it as a list. */
  lemma InSplitsAtCommas(show: Json -> string, env: Env, key: string, a: string, b: string, row: Row)
    requires ValidKey(key) && ',' !in a && ',' !in b && Strip(a) != "" && Strip(b) != ""
    requires env.parse(Strip(a + "," + b)).None? && env.parse(Strip(a)).None? && env.parse(Strip(b)).None?
    ensures Accepts(show, env, Filter(key, In, Text(a + "," + b)), row) <==>
            Accepts(show, env, Filter(key, Eq, Text(Strip(a))), row) || Accepts(show, env, Filter(key, Eq, Text(Strip(b))), row)
  {
    var v := Text(a + "," + b);
    var x, y := Text(Strip(a)), Text(Strip(b));
    TwoParts(env, a, b);
    Unparsed(env, key, a);
    Unparsed(env, key, b);
    TwoAccept(show, env, key, v, x, y, row);
  }

  lemma TwoAccept(show: Json -> string, env: Env, key: string, v: Value, x: Value, y: Value, row: Row)
    requires ValidKey(key) && RawMembers(env, v) == Done([x, y])
    requires Translate(env, Filter(key, Eq, x)).Done? && Translate(env, Filter(key, Eq, y)).Done?
    ensures Accepts(show, env, Filter(key, In, v), row) <==>
            Accepts(show, env, Filter(key, Eq, x), row) || Accepts(show, env, Filter(key, Eq, y), row)
  {
    BothTranslate(env, key, v, x, y);
    InIsSomeEqual(show, env, key, v, row);
    SomeOfTwo(show, env, key, x, y, row);
  }

  lemma BothTranslate(env: Env, key: string, v: Value, x: Value, y: Value)
    requires ValidKey(key) && RawMembers(env, v) == Done([x, y])
    requires Translate(env, Filter(key, Eq, x)).Done? && Translate(env, Filter(key, Eq, y)).Done?
    ensures Translate(env, Filter(key, In, v)).Done?
  {
    InTranslatable(env, key, v);
    assert [x, y][0] == x && [x, y][1] == y;
  }

  lemma TwoParts(env: Env, a: string, b: string)
    requires ',' !in a && ',' !in b && Strip(a) != "" && Strip(b) != "" && env.parse(Strip(a + "," + b)).None?
    ensures RawMembers(env, Text(a + "," + b)) == Done([Text(Strip(a)), Text(Strip(b))])
  {
    SplitTwo(a, b);
    assert Texts([Strip(a), Strip(b)]) == [Text(Strip(a)), Text(Strip(b))];
  }

  lemma SomeOfTwo(show: Json -> string, env: Env, key: string, v: Value, w: Value, row: Row)
    ensures AcceptsSome(show, env, key, [v, w], row) <==>
            Accepts(show, env, Filter(key, Eq, v), row) || Accepts(show, env, Filter(key, Eq, w), row)
  {
    assert [v, w][0] == v && [v, w][1] == w;
  }

  lemma Unparsed(env: Env, key: string, a: string)
    requires ValidKey(key) && Strip(a) != "" && env.parse(Strip(a)).None?
    ensures Translate(env, Filter(key, Eq, Text(Strip(a)))).Done?
  {
    StripTrims(a);
    StripTrims(Strip(a));
    StripTwice(a);
  }

  lemma StripTwice(a: string)
    ensures Strip(Strip(a)) == Strip(a)
  {
    StripTrims(a);
  }

  /** Where `=` with a text looks: in the text itself, among the elements of a list and the keys of an
      object, never in JSON null. */
  lemma EqLooksInside(show: Json -> string, env: Env, key: string, t: string, row: Row)
    requires ValidKey(key) && t != "" && Strip(t) != "" && env.parse(Strip(t)).None? && row(key).Some?
    ensures var yes, j := Accepts(show, env, Filter(key, Eq, Text(t)), row), row(key).value;
            && (j.JText? ==> (yes <==> Lower(j.s) == Lower(t)))
            && (j.JArray? ==> (yes <==> Lower(show(j)) == Lower(t) || JText(Lower(t)) in j.items))
            && (j.JObject? ==> (yes <==> Lower(show(j)) == Lower(t) || Lower(t) in j.keys))
            && (j == JNull ==> !yes)
  {
    EqFindsText(show, env, key, t, row);
    LowerTwice(t);
  }

  /** A number or a truth value given to `in` stands for itself. */
  lemma InTakesScalars(show: Json -> string, env: Env, key: string, v: Value, row: Row)
    requires ValidKey(key) && (v.Number? || v.Bool?)
    ensures Translate(env, Filter(key, In, v)).Done?
    ensures Accepts(show, env, Filter(key, In, v), row) <==> Accepts(show, env, Filter(key, Eq, v), row)
  {
    assert RawMembers(env, v) == Done([v]) && [v][0] == v;
    InTranslatable(env, key, v);
    InIsSomeEqual(show, env, key, v, row);
  }

  /** A text that Python reads as a list stands for its elements. */
  lemma InReadsLists(env: Env, s: string, items: seq<Value>)
    requires env.parse(Strip(s)) == Some(List(items)) && items != []
    ensures RawMembers(env, Text(s)) == RawMembers(env, List(items)) == Done(items)
  {
  }

  // ---------------------------------------------------------------- what is refused

  function Segments(key: string, current: string): seq<string>
    decreases |key|
  {
    if key == "" then [current]
    else if key[0] == '.' then [current] + Segments(key[1..], "")
    else Segments(key[1..], current + [key[0]])
  }

  ghost predicate NoneEmpty(parts: seq<string>) {
    forall i | 0 <= i < |parts| :: parts[i] != ""
  }

  /** No two dots in a row, none in front when nothing stands before, none at the end. */
  predicate DotsApart(key: string, started: bool) {
    && (key == "" ==> started) && (key != "" && key[0] == '.' ==> started)
    && (key != "" ==> DotsApart(key[1..], key[0] != '.'))
  }

  lemma {:induction false} SegmentsNonEmpty(key: string, current: string)
    ensures NoneEmpty(Segments(key, current)) <==> DotsApart(key, current != "")
    decreases |key|
  {
    if key == "" {
      assert Segments(key, current)[0] == current;
    } else if key[0] == '.' {
      SegmentsNonEmpty(key[1..], "");
      var rest := Segments(key[1..], "");
      var all := [current] + rest;
      assert all[0] == current && forall i | 0 <= i < |rest| :: all[i + 1] == rest[i];
    } else {
      SegmentsNonEmpty(key[1..], current + [key[0]]);
    }
  }

  ghost predicate Apart(key: string) {
    forall i | 0 < i < |key| :: !(key[i] == '.' && key[i - 1] == '.')
  }

  lemma {:induction false} DotsApartIs(key: string, started: bool)
    ensures DotsApart(key, started) <==>
            if key == "" then started else (key[0] == '.' ==> started) && key[|key| - 1] != '.' && Apart(key)
    decreases |key|
  {
    if key != "" {
      var rest := key[1..];
      DotsApartIs(rest, key[0] != '.');
      if rest != [] {
        if Apart(rest) && !(rest[0] == '.' && key[0] == '.') {
          forall i | 0 < i < |key| ensures !(key[i] == '.' && key[i - 1] == '.') {
            if i > 1 { assert key[i] == rest[i - 1] && key[i - 1] == rest[i - 2]; }
          }
        }
        if Apart(key) {
          forall i | 0 < i < |rest| ensures !(rest[i] == '.' && rest[i - 1] == '.') {
            assert rest[i] == key[i + 1] && rest[i - 1] == key[i];
          }
          assert !(key[1] == '.' && key[1 - 1] == '.');
        }
      }
    }
  }

  /** A key is refused exactly when one of its dotted segments is empty or it holds a NUL. */
  lemma KeyIsValidIff(key: string)
    ensures ValidKey(key) <==> NoneEmpty(Segments(key, "")) && '\0' !in key
  {
    SegmentsNonEmpty(key, "");
    DotsApartIs(key, false);
    assert key != "" ==> (ValidKey(key) <==> key[0] != '.' && key[|key| - 1] != '.' && '\0' !in key && Apart(key));
  }

  /** Which values each operator refuses. */
  lemma TranslatesIff(env: Env, f: Filter<Value>)
    requires ValidKey(f.key)
    ensures f.op == Empty || f.op == NotEmpty ==> Translate(env, f).Done?
    ensures f.op == Eq || f.op == Ne ==> (Translate(env, f).Done? <==> !f.value.List?)
    ensures f.op == Contains || f.op == NotContains || f.op == StartWith || f.op == EndWith ==>
              (Translate(env, f).Done? <==>
                 !f.value.Null? && !f.value.List? && (if f.value.Text? then f.value.s != "" else env.repr(f.value) != ""))
  {
  }
}
