/** Keys for nested Python values (common/misc_utils.py): `_canonicalize` and `hashable_key`. */
module Canonical {

  /** A hashable value that is no container, up to Python's equality (`1 == True == 1.0`). */
  datatype Atom = Text(s: string) | Other(code: int)

  /** Sets and dictionaries list their members in iteration order. */
  datatype Value =
    | Leaf(atom: Atom)
    | Tuple(items: seq<Value>)
    | List(items: seq<Value>)
    | Frozen(items: seq<Value>)
    | Set(items: seq<Value>)
    | Dict(entries: seq<Entry>)

  datatype Entry = Entry(key: Value, value: Value)

  /** Values made of atoms, tuples and frozen sets, with their own equality. */
  datatype Key = Single(atom: Atom) | Sequence(items: seq<Key>) | Members(keys: set<Key>)

  // ---------------------------------------------------------------- Python's view

  /** `hash(v)` does not raise. */
  predicate Hashable(v: Value) {
    match v
    case Leaf(_) => true
    case Tuple(xs) => forall i | 0 <= i < |xs| :: Hashable(xs[i])
    case Frozen(xs) => true
    case _ => false
  }

  predicate IsSet(v: Value) {
    v.Set? || v.Frozen?
  }

  /** `v == w`. */
  predicate Equal(v: Value, w: Value)
    decreases v, 0
  {
    match v
    case Leaf(a) => w.Leaf? && w.atom == a
    case Tuple(xs) => w.Tuple? && |w.items| == |xs| && forall i | 0 <= i < |xs| :: Equal(xs[i], w.items[i])
    case List(xs) => w.List? && |w.items| == |xs| && forall i | 0 <= i < |xs| :: Equal(xs[i], w.items[i])
    case Set(xs) => IsSet(w) && |w.items| == |xs| && forall i | 0 <= i < |xs| :: Holds(w.items, xs[i])
    case Frozen(xs) => IsSet(w) && |w.items| == |xs| && forall i | 0 <= i < |xs| :: Holds(w.items, xs[i])
    case Dict(es) => w.Dict? && |w.entries| == |es| && forall i | 0 <= i < |es| :: HoldsEntry(w.entries, es[i])
  }

  /** `x in ys`. */
  predicate Holds(ys: seq<Value>, x: Value)
    decreases x, 1
  {
    exists j | 0 <= j < |ys| :: Equal(x, ys[j])
  }

  /** The key is there, with an equal value. */
  predicate HoldsEntry(fs: seq<Entry>, e: Entry)
    decreases e, 1
  {
    exists j | 0 <= j < |fs| :: Equal(e.key, fs[j].key) && Equal(e.value, fs[j].value)
  }

  /** Members of sets and keys of dictionaries are hashable and pairwise unequal. */
  predicate Wf(v: Value) {
    match v
    case Leaf(_) => true
    case Tuple(xs) => forall i | 0 <= i < |xs| :: Wf(xs[i])
    case List(xs) => forall i | 0 <= i < |xs| :: Wf(xs[i])
    case Set(xs) =>
      && (forall i | 0 <= i < |xs| :: Wf(xs[i]) && Hashable(xs[i]))
      && forall i, j | 0 <= i < j < |xs| :: !Equal(xs[i], xs[j])
    case Frozen(xs) =>
      && (forall i | 0 <= i < |xs| :: Wf(xs[i]) && Hashable(xs[i]))
      && forall i, j | 0 <= i < j < |xs| :: !Equal(xs[i], xs[j])
    case Dict(es) =>
      && (forall i | 0 <= i < |es| :: Wf(es[i].key) && Hashable(es[i].key) && Wf(es[i].value))
      && forall i, j | 0 <= i < j < |es| :: !Equal(es[i].key, es[j].key)
  }

  // ---------------------------------------------------------------- the canonical form

  function Elems(ks: seq<Key>): set<Key> {
    set k | k in ks
  }

  /** A hashable value used as it is. */
  function Raw(v: Value): Key
    requires Hashable(v) && Wf(v)
  {
    match v
    case Leaf(a) => Single(a)
    case Tuple(xs) => Sequence(seq(|xs|, i requires 0 <= i < |xs| => Raw(xs[i])))
    case Frozen(xs) => Members(Elems(seq(|xs|, i requires 0 <= i < |xs| => Raw(xs[i]))))
  }

  function Tagged(tag: string, k: Key): Key {
    Sequence([Single(Text(tag)), k])
  }

  /** `_canonicalize`. Dictionary keys stay as they are. */
  function Canon(v: Value): Key
    requires Wf(v)
  {
    match v
    case Leaf(a) => Single(a)
    case Tuple(xs) => Tagged("__tuple__", Sequence(seq(|xs|, i requires 0 <= i < |xs| => Canon(xs[i]))))
    case List(xs) => Tagged("__list__", Sequence(seq(|xs|, i requires 0 <= i < |xs| => Canon(xs[i]))))
    case Set(xs) => Tagged("__set__", Members(Elems(seq(|xs|, i requires 0 <= i < |xs| => Canon(xs[i])))))
    case Frozen(xs) => Tagged("__set__", Members(Elems(seq(|xs|, i requires 0 <= i < |xs| => Canon(xs[i])))))
    case Dict(es) =>
      Tagged("__dict__", Members(Elems(seq(|es|, i requires 0 <= i < |es| => Sequence([Raw(es[i].key), Canon(es[i].value)])))))
  }

  /** `hashable_key`: the value itself, or its canonical form in a wrapper equal to no value. */
  datatype Handle = Plain(key: Key) | Wrapped(key: Key)

  function HashableKey(v: Value): Handle
    requires Wf(v)
  {
    if Hashable(v) then Plain(Raw(v)) else Wrapped(Canon(v))
  }

  // ---------------------------------------------------------------- sets of keys

  ghost predicate Apart(ks: seq<Key>) {
    forall i, j | 0 <= i < j < |ks| :: ks[i] != ks[j]
  }

  ghost predicate Covered(ks: seq<Key>, ls: seq<Key>) {
    forall i | 0 <= i < |ks| :: ks[i] in ls
  }

  lemma {:induction false} ElemsCount(ks: seq<Key>)
    requires Apart(ks)
    ensures |Elems(ks)| == |ks|
  {
    if ks != [] {
      var n := |ks| - 1;
      ElemsCount(ks[..n]);
      assert ks[n] !in ks[..n];
      assert Elems(ks) == Elems(ks[..n]) + {ks[n]} by {
        assert ks == ks[..n] + [ks[n]];
      }
    }
  }

  lemma SubsetOfSameSize(a: set<Key>, b: set<Key>)
    requires a <= b && |a| == |b|
    ensures a == b
  {
    assert |b - a| == 0;
  }

  /** Sequences without repetition have the same elements exactly when they are equally long and
      one is covered by the other. */
  lemma ElemsEqualIff(ks: seq<Key>, ls: seq<Key>)
    requires Apart(ks) && Apart(ls)
    ensures Elems(ks) == Elems(ls) <==> |ks| == |ls| && Covered(ks, ls)
  {
    ElemsCount(ks);
    ElemsCount(ls);
    if Elems(ks) == Elems(ls) {
      forall i | 0 <= i < |ks| ensures ks[i] in ls {
        assert ks[i] in Elems(ks);
      }
    }
    if |ks| == |ls| && Covered(ks, ls) {
      assert Elems(ks) <= Elems(ls);
      SubsetOfSameSize(Elems(ks), Elems(ls));
    }
  }

  // ---------------------------------------------------------------- height

  function Highest(hs: seq<nat>): (h: nat)
    ensures forall i | 0 <= i < |hs| :: hs[i] <= h
  {
    if hs == [] then 0
    else
      var n := |hs| - 1;
      var h := Highest(hs[..n]);
      if hs[n] > h then hs[n] else h
  }

  function Height(v: Value): nat {
    match v
    case Leaf(_) => 0
    case Dict(es) =>
      1 + Highest(seq(|es|, i requires 0 <= i < |es| => Height(es[i].key))) + Highest(seq(|es|, i requires 0 <= i < |es| => Height(es[i].value)))
    case _ => 1 + Highest(seq(|v.items|, i requires 0 <= i < |v.items| => Height(v.items[i])))
  }

  lemma LowerItem(v: Value, i: nat)
    requires !v.Leaf? && !v.Dict? && i < |v.items|
    ensures Height(v.items[i]) < Height(v)
  {
    var hs := seq(|v.items|, i requires 0 <= i < |v.items| => Height(v.items[i]));
    assert hs[i] == Height(v.items[i]);
  }

  lemma LowerEntry(v: Value, i: nat)
    requires v.Dict? && i < |v.entries|
    ensures Height(v.entries[i].key) < Height(v) && Height(v.entries[i].value) < Height(v)
  {
    var ks := seq(|v.entries|, i requires 0 <= i < |v.entries| => Height(v.entries[i].key));
    var hs := seq(|v.entries|, i requires 0 <= i < |v.entries| => Height(v.entries[i].value));
    assert ks[i] == Height(v.entries[i].key) && hs[i] == Height(v.entries[i].value);
  }

  // ---------------------------------------------------------------- equal forms, equal values

  /** Keys stand for values: two keys are equal exactly when their values are. */
  ghost predicate Agree(xs: seq<Value>, ys: seq<Value>, ks: seq<Key>, ls: seq<Key>) {
    && |ks| == |xs| && |ls| == |ys|
    && forall i, j | 0 <= i < |xs| && 0 <= j < |ys| :: ks[i] == ls[j] <==> Equal(xs[i], ys[j])
  }

  ghost predicate AllUnequal(xs: seq<Value>) {
    forall i, j | 0 <= i < j < |xs| :: !Equal(xs[i], xs[j])
  }

  ghost predicate Pairwise(xs: seq<Value>, ys: seq<Value>) {
    |ys| == |xs| && forall i | 0 <= i < |xs| :: Equal(xs[i], ys[i])
  }

  ghost predicate EachIn(xs: seq<Value>, ys: seq<Value>) {
    |ys| == |xs| && forall i | 0 <= i < |xs| :: Holds(ys, xs[i])
  }

  lemma SeqsAgree(xs: seq<Value>, ys: seq<Value>, ks: seq<Key>, ls: seq<Key>)
    requires Agree(xs, ys, ks, ls)
    ensures ks == ls <==> Pairwise(xs, ys)
  {
  }

  lemma SetsAgree(xs: seq<Value>, ys: seq<Value>, ks: seq<Key>, ls: seq<Key>)
    requires Agree(xs, ys, ks, ls) && Agree(xs, xs, ks, ks) && Agree(ys, ys, ls, ls)
    requires AllUnequal(xs) && AllUnequal(ys)
    ensures Elems(ks) == Elems(ls) <==> EachIn(xs, ys)
  {
    ElemsEqualIff(ks, ls);
    forall i | 0 <= i < |xs|
      ensures ks[i] in ls <==> Holds(ys, xs[i])
    {
      if ks[i] in ls {
        var j :| 0 <= j < |ls| && ks[i] == ls[j];
        assert Equal(xs[i], ys[j]);
      }
      if Holds(ys, xs[i]) {
        var j :| 0 <= j < |ys| && Equal(xs[i], ys[j]);
        assert ks[i] == ls[j];
      }
    }
  }

  /** Equality of containers, in these terms. */
  lemma EqualSeqs(v: Value, w: Value)
    requires (v.Tuple? && w.Tuple?) || (v.List? && w.List?)
    ensures Equal(v, w) <==> Pairwise(v.items, w.items)
  {
  }

  lemma EqualSets(v: Value, w: Value)
    requires IsSet(v) && IsSet(w)
    ensures Equal(v, w) <==> EachIn(v.items, w.items)
  {
  }

  lemma EqualDicts(v: Value, w: Value)
    requires v.Dict? && w.Dict?
    ensures Equal(v, w) <==> EachEntryIn(v.entries, w.entries)
  {
  }

  function Tag(v: Value): string
    requires !v.Leaf?
  {
    match v
    case Tuple(_) => "__tuple__"
    case List(_) => "__list__"
    case Set(_) => "__set__"
    case Frozen(_) => "__set__"
    case Dict(_) => "__dict__"
  }

  lemma SameTag(v: Value, w: Value)
    requires !v.Leaf? && !w.Leaf?
    ensures Tag(v) == Tag(w) <==> (v.Tuple? && w.Tuple?) || (v.List? && w.List?) || (IsSet(v) && IsSet(w)) || (v.Dict? && w.Dict?)
  {
    assert "__tuple__"[2] == 't' && "__list__"[2] == 'l' && "__set__"[2] == 's' && "__dict__"[2] == 'd';
  }

  function Max(a: nat, b: nat): nat {
    if a > b then a else b
  }

  // ---------------------------------------------------------------- hashable values

  ghost predicate AllHashable(xs: seq<Value>) {
    forall i | 0 <= i < |xs| :: Hashable(xs[i]) && Wf(xs[i])
  }

  ghost predicate Under(h: nat, xs: seq<Value>) {
    forall i | 0 <= i < |xs| :: Height(xs[i]) < h
  }

  lemma ItemsUnder(v: Value)
    requires !v.Leaf? && !v.Dict?
    ensures Under(Height(v), v.items)
  {
    forall i | 0 <= i < |v.items| ensures Height(v.items[i]) < Height(v) { LowerItem(v, i); }
  }

  function RawAll(xs: seq<Value>): (ks: seq<Key>)
    requires AllHashable(xs)
    ensures |ks| == |xs| && forall i | 0 <= i < |xs| :: ks[i] == Raw(xs[i])
  {
    seq(|xs|, i requires 0 <= i < |xs| => Raw(xs[i]))
  }

  lemma {:induction false} RawAgree(h: nat, xs: seq<Value>, ys: seq<Value>)
    requires AllHashable(xs) && AllHashable(ys) && Under(h, xs) && Under(h, ys)
    ensures Agree(xs, ys, RawAll(xs), RawAll(ys))
    decreases h, 0
  {
    forall i, j | 0 <= i < |xs| && 0 <= j < |ys| ensures RawAll(xs)[i] == RawAll(ys)[j] <==> Equal(xs[i], ys[j]) {
      RawIsFaithful(xs[i], ys[j]);
    }
  }

  lemma RawUnfold(v: Value)
    requires Hashable(v) && Wf(v) && !v.Leaf?
    ensures !v.Dict? && AllHashable(v.items)
    ensures v.Tuple? ==> Raw(v) == Sequence(RawAll(v.items))
    ensures v.Frozen? ==> AllUnequal(v.items) && Raw(v) == Members(Elems(RawAll(v.items)))
  {
    assert !v.Dict?;
    if v.Tuple? {
      assert Raw(v).items == RawAll(v.items);
    } else {
      var xs := v.items;
      assert seq(|xs|, i requires 0 <= i < |xs| => Raw(xs[i])) == RawAll(xs);
      assert Raw(v).keys == Elems(RawAll(v.items));
    }
  }

  /** Hashable values are equal exactly when, taken as they are, their keys are. */
  lemma {:induction false} RawIsFaithful(v: Value, w: Value)
    requires Hashable(v) && Wf(v) && Hashable(w) && Wf(w)
    ensures Raw(v) == Raw(w) <==> Equal(v, w)
    decreases Max(Height(v), Height(w)), 1
  {
    if !v.Leaf? && !w.Leaf? {
      RawUnfold(v);
      RawUnfold(w);
      var h := Max(Height(v), Height(w));
      ItemsUnder(v);
      ItemsUnder(w);
      var ks, ls := RawAll(v.items), RawAll(w.items);
      RawAgree(h, v.items, w.items);
      if v.Tuple? && w.Tuple? {
        SeqsAgree(v.items, w.items, ks, ls);
        EqualSeqs(v, w);
      } else if v.Frozen? && w.Frozen? {
        RawAgree(h, v.items, v.items);
        RawAgree(h, w.items, w.items);
        SetsAgree(v.items, w.items, ks, ls);
        EqualSets(v, w);
      }
    }
  }

  // ---------------------------------------------------------------- all values

  ghost predicate AllWf(xs: seq<Value>) {
    forall i | 0 <= i < |xs| :: Wf(xs[i])
  }

  function CanonAll(xs: seq<Value>): (ks: seq<Key>)
    requires AllWf(xs)
    ensures |ks| == |xs| && forall i | 0 <= i < |xs| :: ks[i] == Canon(xs[i])
  {
    seq(|xs|, i requires 0 <= i < |xs| => Canon(xs[i]))
  }

  lemma {:induction false} CanonAgree(h: nat, xs: seq<Value>, ys: seq<Value>)
    requires AllWf(xs) && AllWf(ys) && Under(h, xs) && Under(h, ys)
    ensures Agree(xs, ys, CanonAll(xs), CanonAll(ys))
    decreases h, 0
  {
    forall i, j | 0 <= i < |xs| && 0 <= j < |ys| ensures CanonAll(xs)[i] == CanonAll(ys)[j] <==> Equal(xs[i], ys[j]) {
      CanonIsFaithful(xs[i], ys[j]);
    }
  }

  function Keys(es: seq<Entry>): (ks: seq<Value>)
    ensures |ks| == |es| && forall i | 0 <= i < |es| :: ks[i] == es[i].key
  {
    seq(|es|, i requires 0 <= i < |es| => es[i].key)
  }

  function Values(es: seq<Entry>): (vs: seq<Value>)
    ensures |vs| == |es| && forall i | 0 <= i < |es| :: vs[i] == es[i].value
  {
    seq(|es|, i requires 0 <= i < |es| => es[i].value)
  }

  function Pairs(ks: seq<Key>, vs: seq<Key>): (r: seq<Key>)
    requires |ks| == |vs|
    ensures |r| == |ks| && forall i | 0 <= i < |ks| :: r[i] == Sequence([ks[i], vs[i]])
  {
    seq(|ks|, i requires 0 <= i < |ks| => Sequence([ks[i], vs[i]]))
  }

  lemma SamePair(a: Key, b: Key, c: Key, d: Key)
    ensures Sequence([a, b]) == Sequence([c, d]) <==> a == c && b == d
  {
    assert [a, b][0] == a && [a, b][1] == b && [c, d][0] == c && [c, d][1] == d;
  }

  ghost predicate EachEntryIn(es: seq<Entry>, fs: seq<Entry>) {
    |fs| == |es| && forall i | 0 <= i < |es| :: HoldsEntry(fs, es[i])
  }

  /** Dictionaries with distinct keys agree whatever the order of their entries. */
  lemma DictsAgree(es: seq<Entry>, fs: seq<Entry>, ks: seq<Key>, vs: seq<Key>, ls: seq<Key>, ws: seq<Key>)
    requires Agree(Keys(es), Keys(fs), ks, ls) && Agree(Values(es), Values(fs), vs, ws)
    requires Agree(Keys(es), Keys(es), ks, ks) && Agree(Keys(fs), Keys(fs), ls, ls)
    requires AllUnequal(Keys(es)) && AllUnequal(Keys(fs))
    ensures Elems(Pairs(ks, vs)) == Elems(Pairs(ls, ws)) <==> EachEntryIn(es, fs)
  {
    var ps, qs := Pairs(ks, vs), Pairs(ls, ws);
    PairsApart(Keys(es), ks, vs);
    PairsApart(Keys(fs), ls, ws);
    ElemsEqualIff(ps, qs);
    forall i, j | 0 <= i < |es| && 0 <= j < |fs|
      ensures ps[i] == qs[j] <==> Equal(es[i].key, fs[j].key) && Equal(es[i].value, fs[j].value)
    {
      SamePair(ks[i], vs[i], ls[j], ws[j]);
      assert Keys(es)[i] == es[i].key && Keys(fs)[j] == fs[j].key;
      assert Values(es)[i] == es[i].value && Values(fs)[j] == fs[j].value;
    }
    CoveredEntries(es, fs, ps, qs);
  }

  lemma PairsApart(xs: seq<Value>, ks: seq<Key>, vs: seq<Key>)
    requires |ks| == |vs| && Agree(xs, xs, ks, ks) && AllUnequal(xs)
    ensures Apart(Pairs(ks, vs))
  {
    forall i, j | 0 <= i < j < |ks| ensures Pairs(ks, vs)[i] != Pairs(ks, vs)[j] {
      SamePair(ks[i], vs[i], ks[j], vs[j]);
    }
  }

  lemma CoveredEntries(es: seq<Entry>, fs: seq<Entry>, ps: seq<Key>, qs: seq<Key>)
    requires |ps| == |es| && |qs| == |fs|
    requires forall i, j | 0 <= i < |es| && 0 <= j < |fs| ::
               ps[i] == qs[j] <==> Equal(es[i].key, fs[j].key) && Equal(es[i].value, fs[j].value)
    ensures |ps| == |qs| && Covered(ps, qs) <==> EachEntryIn(es, fs)
  {
    forall i | 0 <= i < |es|
      ensures ps[i] in qs <==> HoldsEntry(fs, es[i])
    {
      if ps[i] in qs {
        var j :| 0 <= j < |qs| && ps[i] == qs[j];
        assert Equal(es[i].key, fs[j].key) && Equal(es[i].value, fs[j].value);
      }
      if HoldsEntry(fs, es[i]) {
        var j :| 0 <= j < |fs| && Equal(es[i].key, fs[j].key) && Equal(es[i].value, fs[j].value);
        assert ps[i] == qs[j];
      }
    }
  }

  lemma EntriesUnder(v: Value)
    requires v.Dict?
    ensures Under(Height(v), Keys(v.entries)) && Under(Height(v), Values(v.entries))
  {
    forall i | 0 <= i < |v.entries|
      ensures Height(Keys(v.entries)[i]) < Height(v) && Height(Values(v.entries)[i]) < Height(v)
    {
      LowerEntry(v, i);
    }
  }

  lemma DictUnfold(v: Value)
    requires Wf(v) && v.Dict?
    ensures AllHashable(Keys(v.entries)) && AllWf(Values(v.entries)) && AllUnequal(Keys(v.entries))
    ensures Canon(v) == Tagged("__dict__", Members(Elems(Pairs(RawAll(Keys(v.entries)), CanonAll(Values(v.entries))))))
  {
    var es := v.entries;
    assert seq(|es|, i requires 0 <= i < |es| => Sequence([Raw(es[i].key), Canon(es[i].value)])) == Pairs(RawAll(Keys(es)), CanonAll(Values(es)));
  }

  lemma CanonUnfold(v: Value)
    requires Wf(v) && !v.Leaf? && !v.Dict?
    ensures AllWf(v.items)
    ensures v.Tuple? ==> Canon(v) == Tagged("__tuple__", Sequence(CanonAll(v.items)))
    ensures v.List? ==> Canon(v) == Tagged("__list__", Sequence(CanonAll(v.items)))
    ensures IsSet(v) ==> AllUnequal(v.items) && Canon(v) == Tagged("__set__", Members(Elems(CanonAll(v.items))))
  {
    var xs := v.items;
    assert seq(|xs|, i requires 0 <= i < |xs| => Canon(xs[i])) == CanonAll(xs);
  }

  /** Forms of different kinds differ in their tags, so no other value has the same form. */
  lemma TagsTell(v: Value, w: Value)
    requires Wf(v) && Wf(w) && (v.Leaf? || w.Leaf? || Tag(v) != Tag(w)) && !(v.Leaf? && w.Leaf?)
    ensures Canon(v) != Canon(w) && !Equal(v, w)
  {
    if !v.Leaf? && !w.Leaf? {
      assert Canon(v).items[0] == Single(Text(Tag(v)));
      assert Canon(w).items[0] == Single(Text(Tag(w)));
    }
  }

  lemma TaggedSame(tag: string, k: Key, l: Key)
    ensures Tagged(tag, k) == Tagged(tag, l) <==> k == l
  {
    SamePair(Single(Text(tag)), k, Single(Text(tag)), l);
  }

  /** Canonical forms are equal exactly when the values are equal in Python. */
  lemma {:induction false} CanonIsFaithful(v: Value, w: Value)
    requires Wf(v) && Wf(w)
    ensures Canon(v) == Canon(w) <==> Equal(v, w)
    decreases Max(Height(v), Height(w)), 2
  {
    if v.Leaf? && w.Leaf? {
    } else if v.Leaf? || w.Leaf? || Tag(v) != Tag(w) {
      TagsTell(v, w);
    } else {
      SameTag(v, w);
      if v.Dict? {
        DictFormsAgree(v, w);
      } else if IsSet(v) {
        SetFormsAgree(v, w);
      } else {
        SeqFormsAgree(v, w);
      }
    }
  }

  lemma {:induction false} SeqFormsAgree(v: Value, w: Value)
    requires Wf(v) && Wf(w) && ((v.Tuple? && w.Tuple?) || (v.List? && w.List?))
    ensures Canon(v) == Canon(w) <==> Equal(v, w)
    decreases Max(Height(v), Height(w)), 1
  {
    CanonUnfold(v);
    CanonUnfold(w);
    ItemsUnder(v);
    ItemsUnder(w);
    var ks, ls := CanonAll(v.items), CanonAll(w.items);
    CanonAgree(Max(Height(v), Height(w)), v.items, w.items);
    SeqsAgree(v.items, w.items, ks, ls);
    TaggedSame(Tag(v), Sequence(ks), Sequence(ls));
    EqualSeqs(v, w);
  }

  lemma {:induction false} SetFormsAgree(v: Value, w: Value)
    requires Wf(v) && Wf(w) && IsSet(v) && IsSet(w)
    ensures Canon(v) == Canon(w) <==> Equal(v, w)
    decreases Max(Height(v), Height(w)), 1
  {
    CanonUnfold(v);
    CanonUnfold(w);
    var h := Max(Height(v), Height(w));
    ItemsUnder(v);
    ItemsUnder(w);
    var ks, ls := CanonAll(v.items), CanonAll(w.items);
    CanonAgree(h, v.items, w.items);
    CanonAgree(h, v.items, v.items);
    CanonAgree(h, w.items, w.items);
    SetsAgree(v.items, w.items, ks, ls);
    TaggedSame("__set__", Members(Elems(ks)), Members(Elems(ls)));
    EqualSets(v, w);
  }

  lemma {:induction false} DictFormsAgree(v: Value, w: Value)
    requires Wf(v) && Wf(w) && v.Dict? && w.Dict?
    ensures Canon(v) == Canon(w) <==> Equal(v, w)
    decreases Max(Height(v), Height(w)), 1
  {
    var h := Max(Height(v), Height(w));
    DictUnfold(v);
    DictUnfold(w);
    EntriesUnder(v);
    EntriesUnder(w);
    var ks, ls := Keys(v.entries), Keys(w.entries);
    var vs, ws := Values(v.entries), Values(w.entries);
    RawAgree(h, ks, ls);
    RawAgree(h, ks, ks);
    RawAgree(h, ls, ls);
    CanonAgree(h, vs, ws);
    DictsAgree(v.entries, w.entries, RawAll(ks), CanonAll(vs), RawAll(ls), CanonAll(ws));
    TaggedSame("__dict__", Members(Elems(Pairs(RawAll(ks), CanonAll(vs)))), Members(Elems(Pairs(RawAll(ls), CanonAll(ws)))));
    EqualDicts(v, w);
  }

  // ---------------------------------------------------------------- keys

  /** Keys are equal exactly when the values are equal and alike in being hashable. */
  lemma KeysEqualIff(v: Value, w: Value)
    requires Wf(v) && Wf(w)
    ensures HashableKey(v) == HashableKey(w) <==> Equal(v, w) && (Hashable(v) <==> Hashable(w))
  {
    if Hashable(v) && Hashable(w) {
      RawIsFaithful(v, w);
    } else if !Hashable(v) && !Hashable(w) {
      CanonIsFaithful(v, w);
    }
  }

  lemma Singletons(a: Atom)
    ensures var s, f := Set([Leaf(a)]), Frozen([Leaf(a)]); Wf(s) && Wf(f) && Equal(s, f)
  {
    var s, f := Set([Leaf(a)]), Frozen([Leaf(a)]);
    assert forall i | 0 <= i < 1 :: s.items[i] == Leaf(a) && Wf(s.items[i]) && Hashable(s.items[i]);
    assert forall i | 0 <= i < 1 :: f.items[i] == Leaf(a) && Wf(f.items[i]) && Hashable(f.items[i]);
    assert Equal(Leaf(a), f.items[0]);
    assert Holds(f.items, s.items[0]);
    EqualSets(s, f);
  }

  lemma OneTuple(v: Value, w: Value)
    requires Wf(v) && Wf(w)
    ensures Wf(Tuple([v])) && Wf(Tuple([w])) && (Equal(v, w) ==> Equal(Tuple([v]), Tuple([w]))) && (Hashable(Tuple([v])) <==> Hashable(v))
  {
    var t, u := Tuple([v]), Tuple([w]);
    assert t.items[0] == v && u.items[0] == w;
  }

  /** Equal values may have different keys: a set and its frozen twin, and also tuples of them. */
  lemma SetAndFrozenDiffer(a: Atom)
    ensures var s, f := Set([Leaf(a)]), Frozen([Leaf(a)]);
            && Wf(s) && Wf(f) && Equal(s, f) && HashableKey(s) != HashableKey(f)
            && Wf(Tuple([s])) && Wf(Tuple([f])) && Equal(Tuple([s]), Tuple([f])) && HashableKey(Tuple([s])) != HashableKey(Tuple([f]))
  {
    var s, f := Set([Leaf(a)]), Frozen([Leaf(a)]);
    Singletons(a);
    OneTuple(s, f);
    OneTuple(f, s);
  }
}
