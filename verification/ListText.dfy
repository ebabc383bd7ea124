/** How a database writes a list of texts as text: JSON (section 7 of RFC 8259), a comma and a
    space between the elements. What can be found in such a text. */
module ListText {
  import opened Text

  const QUOTE: char := '"'

  /** Characters that JSON writes as they are. */
  predicate CleanChar(c: char) {
    c != QUOTE && c != '\\' && c >= ' '
  }

  predicate Clean(vs: seq<string>) {
    forall i | 0 <= i < |vs| :: forall k | 0 <= k < |vs[i]| :: CleanChar(vs[i][k])
  }

  function Quoted(v: string): string {
    [QUOTE] + v + [QUOTE]
  }

  /** The opening bracket and the elements. */
  function Open(vs: seq<string>): string
    decreases |vs|, 0
  {
    if vs == [] then "["
    else
      var n := |vs| - 1;
      Before(vs[..n]) + Quoted(vs[n])
  }

  /** What is written up to the next element. */
  function Before(vs: seq<string>): string
    decreases |vs|, 1
  {
    if vs == [] then "[" else Open(vs) + ", "
  }

  /** A list of clean texts as it is written. */
  function WriteList(vs: seq<string>): string {
    Open(vs) + "]"
  }

  // ---------------------------------------------------------------- letter case

  function LowerEach(vs: seq<string>): (r: seq<string>)
    ensures |r| == |vs| && forall i | 0 <= i < |vs| :: r[i] == Lower(vs[i])
  {
    seq(|vs|, i requires 0 <= i < |vs| => Lower(vs[i]))
  }

  lemma {:induction false} LowerOpen(vs: seq<string>)
    ensures Lower(Open(vs)) == Open(LowerEach(vs)) && Lower(Before(vs)) == Before(LowerEach(vs))
  {
    if vs == [] {
      assert Lower("[") == "[";
    } else {
      var n := |vs| - 1;
      LowerOpen(vs[..n]);
      assert LowerEach(vs)[..n] == LowerEach(vs[..n]);
      assert Lower(Quoted(vs[n])) == Quoted(Lower(vs[n]));
      LowerConcat(Before(vs[..n]), Quoted(vs[n]));
      LowerConcat(Open(vs), ", ");
      assert Lower(", ") == ", ";
    }
  }

  lemma LowerList(vs: seq<string>)
    ensures Lower(WriteList(vs)) == WriteList(LowerEach(vs))
  {
    LowerOpen(vs);
    LowerConcat(Open(vs), "]");
    assert Lower("]") == "]";
  }

  // ---------------------------------------------------------------- parts without a quote

  /** An occurrence contains every character it covers. */
  lemma Covered(u: string, s: string, k: nat, p: nat)
    requires k <= p < k + |u| && k <= |s| && u <= s[k..]
    ensures p < |s| && s[p] in u
  {
    assert u[p - k] == s[k..][p - k];
  }

  /** A text without a quote that occurs around a quote occurs on one side of it. */
  lemma OnOneSide(u: string, a: string, b: string)
    requires QUOTE !in u
    ensures OccursIn(u, a + [QUOTE] + b) <==> OccursIn(u, a) || OccursIn(u, b)
  {
    var s := a + [QUOTE] + b;
    if k :| 0 <= k <= |s| && u <= s[k..] {
      if k + |u| <= |a| {
        assert u <= a[k..] by { assert forall i | 0 <= i < |u| :: u[i] == s[k..][i] == a[k..][i]; }
      } else if k > |a| {
        assert s[k..] == b[k - |a| - 1..];
      } else {
        Covered(u, s, k, |a|);
      }
    }
    if k :| 0 <= k <= |a| && u <= a[k..] {
      assert u <= s[k..] by { assert forall i | 0 <= i < |u| :: u[i] == a[k..][i] == s[k..][i]; }
    }
    if k :| 0 <= k <= |b| && u <= b[k..] {
      assert s[k + |a| + 1..] == b[k..];
    }
  }

  ghost predicate InSome(u: string, vs: seq<string>) {
    exists i | 0 <= i < |vs| :: OccursIn(u, vs[i])
  }

  lemma InSomeSnoc(u: string, vs: seq<string>)
    requires vs != []
    ensures InSome(u, vs) <==> InSome(u, vs[..|vs| - 1]) || OccursIn(u, vs[|vs| - 1])
  {
    var init := vs[..|vs| - 1];
    assert forall i | 0 <= i < |init| :: init[i] == vs[i];
  }

  /** The brackets and separators around `n` elements. */
  predicate Fragment(u: string, n: nat) {
    if n == 0 then OccursIn(u, "[]") else OccursIn(u, "[") || OccursIn(u, "]") || (n > 1 && OccursIn(u, ", "))
  }

  lemma {:induction false} OccursInOpen(u: string, vs: seq<string>, tail: string)
    requires QUOTE !in u && vs != []
    ensures OccursIn(u, Open(vs) + tail) <==>
            OccursIn(u, "[") || InSome(u, vs) || (|vs| > 1 && OccursIn(u, ", ")) || OccursIn(u, tail)
    decreases |vs|
  {
    var n := |vs| - 1;
    var front, v := Before(vs[..n]), vs[n];
    assert Open(vs) + tail == front + [QUOTE] + (v + [QUOTE] + tail);
    OnOneSide(u, front, v + [QUOTE] + tail);
    OnOneSide(u, v, tail);
    InSomeSnoc(u, vs);
    if n > 0 {
      OccursInOpen(u, vs[..n], ", ");
    }
  }

  /** A text without a quote occurs in a written list exactly when it occurs in an element or is
      part of a bracket or a separator. */
  lemma OccursInList(u: string, vs: seq<string>)
    requires QUOTE !in u
    ensures OccursIn(u, WriteList(vs)) <==> InSome(u, vs) || Fragment(u, |vs|)
  {
    if vs == [] {
      assert WriteList(vs) == "[]";
    } else {
      OccursInOpen(u, vs, "]");
    }
  }

  lemma {:induction false} OpensWith(vs: seq<string>)
    requires vs != []
    ensures |Open(vs)| >= 3 && Open(vs)[0] == '[' && Open(vs)[1] == QUOTE && Open(vs)[|Open(vs)| - 1] == QUOTE
    decreases |vs|
  {
    if |vs| > 1 { OpensWith(vs[..|vs| - 1]); }
  }

  lemma StartsEmptyList(u: string)
    requires u != ""
    ensures u <= "[]" <==> u == "[" || u == "[]"
    ensures EndsWith("[]", u) <==> u == "]" || u == "[]"
  {
    assert "[]"[1..] == "]" && "[]"[0..] == "[]";
    if |u| == 1 { assert u == [u[0]]; }
  }

  lemma ShortStart(u: string, w: string)
    requires QUOTE !in u && u != "" && |w| > 1 && w[0] == '[' && w[1] == QUOTE
    ensures u <= w <==> u == "["
  {
    if |u| == 1 { assert u == [u[0]]; }
  }

  lemma ShortEnd(u: string, w: string)
    requires QUOTE !in u && u != "" && |w| > 1 && w[|w| - 1] == ']' && w[|w| - 2] == QUOTE
    ensures EndsWith(w, u) <==> u == "]"
  {
    if |u| == 1 {
      assert u == [u[0]] && w[|w| - 1..] == "]";
    } else if |u| <= |w| {
      var tail := w[|w| - |u|..];
      assert tail[|u| - 2] == QUOTE;
      assert u[|u| - 2] in u;
    }
  }

  /** Only a bracket starts or ends a written list. */
  lemma StartsList(u: string, vs: seq<string>)
    requires QUOTE !in u && u != ""
    ensures u <= WriteList(vs) <==> u == "[" || (u == "[]" && vs == [])
    ensures EndsWith(WriteList(vs), u) <==> u == "]" || (u == "[]" && vs == [])
  {
    var w := WriteList(vs);
    if vs == [] {
      assert w == "[]";
      StartsEmptyList(u);
    } else {
      OpensWith(vs);
      ShortStart(u, w);
      ShortEnd(u, w);
    }
  }

  // ---------------------------------------------------------------- parts with a quote

  lemma LowerQuote(t: string)
    ensures QUOTE in Lower(t) <==> QUOTE in t
  {
    if QUOTE in t {
      var k :| 0 <= k < |t| && t[k] == QUOTE;
      assert Lower(t)[k] == QUOTE;
    }
    if QUOTE in Lower(t) {
      var k :| 0 <= k < |t| && Lower(t)[k] == QUOTE;
      assert LowerChar(t[k]) == QUOTE;
    }
  }

  /** No clean text contains a text with a quote. */
  lemma NotInClean(t: string, v: string)
    requires QUOTE in t && forall k | 0 <= k < |v| :: CleanChar(v[k])
    ensures !OccursIn(Lower(t), Lower(v))
  {
    LowerQuote(t);
    LowerQuote(v);
    var q :| 0 <= q < |t| && Lower(t)[q] == QUOTE;
    forall k | 0 <= k <= |v| ensures !(Lower(t) <= Lower(v)[k..]) {
      if Lower(t) <= Lower(v)[k..] {
        assert false;
      }
    }
  }
}
