/** Python string operations used by the metadata filters and the DSL migration. */
module Text {

  function LowerChar(c: char): char {
    if 'A' <= c <= 'Z' then c - 'A' + 'a' else c
  }

  /** `str.lower` on ASCII letters. */
  function Lower(s: string): (r: string)
    ensures |r| == |s| && forall i | 0 <= i < |s| :: r[i] == LowerChar(s[i])
  {
    seq(|s|, i requires 0 <= i < |s| => LowerChar(s[i]))
  }

  lemma LowerTwice(s: string)
    ensures Lower(Lower(s)) == Lower(s)
  {
  }

  lemma LowerConcat(a: string, b: string)
    ensures Lower(a + b) == Lower(a) + Lower(b)
  {
  }

  /** `str.isspace`, and `\s` in a pattern. */
  predicate Space(c: char) {
    || c == ' ' || '\t' <= c <= '\r' || '\U{1C}' <= c <= '\U{1F}' || c == '\U{85}' || c == '\U{A0}'
    || c == '\U{1680}' || '\U{2000}' <= c <= '\U{200A}' || c == '\U{2028}' || c == '\U{2029}'
    || c == '\U{202F}' || c == '\U{205F}' || c == '\U{3000}'
  }

  /** `str.strip`. */
  function Strip(s: string): string
    decreases |s|
  {
    if s == "" then ""
    else if Space(s[0]) then Strip(s[1..])
    else if Space(s[|s| - 1]) then Strip(s[..|s| - 1])
    else s
  }

  predicate Trimmed(s: string) {
    s == "" || (!Space(s[0]) && !Space(s[|s| - 1]))
  }

  /** Stripping leaves a trimmed text, and shortens every other. */
  lemma {:induction false} StripTrims(s: string)
    ensures Trimmed(Strip(s)) && |Strip(s)| <= |s| && (|Strip(s)| == |s| <==> Trimmed(s))
    decreases |s|
  {
    if s == "" {
    } else if Space(s[0]) {
      StripTrims(s[1..]);
    } else if Space(s[|s| - 1]) {
      StripTrims(s[..|s| - 1]);
    }
  }

  lemma LowerTrimmed(s: string)
    ensures Trimmed(Lower(s)) <==> Trimmed(s)
  {
    assert forall c :: Space(LowerChar(c)) <==> Space(c);
  }

  predicate OccursIn(t: string, s: string) {
    exists k | 0 <= k <= |s| :: t <= s[k..]
  }

  predicate EndsWith(s: string, t: string) {
    |t| <= |s| && s[|s| - |t|..] == t
  }

  /** `str.replace`: leftmost, non-overlapping; an empty `old` is found around every character. */
  function Replace(s: string, target: string, sub: string): string
    decreases |s|
  {
    if target == "" then (if s == "" then sub else sub + [s[0]] + Replace(s[1..], target, sub))
    else if s == "" then ""
    else if target <= s then sub + Replace(s[|target|..], target, sub)
    else [s[0]] + Replace(s[1..], target, sub)
  }

  /** The non-blank, trimmed parts between commas. */
  function SplitCommas(s: string, current: string): seq<string>
    decreases |s|
  {
    if s == "" then (if Strip(current) == "" then [] else [Strip(current)])
    else if s[0] == ',' then SplitCommas("", current) + SplitCommas(s[1..], "")
    else SplitCommas(s[1..], current + [s[0]])
  }

  // ---------------------------------------------------------------- what they do

  const UPPER := "ABCDEFGHIJKLMNOPQRSTUVWXYZ"
  const LOWER := "abcdefghijklmnopqrstuvwxyz"

  /** Lower-casing maps each capital to its small letter and leaves everything else. */
  lemma LowerLetters(c: char)
    ensures forall k | 0 <= k < 26 :: LowerChar(UPPER[k]) == LOWER[k]
    ensures c !in UPPER ==> LowerChar(c) == c
  {
    if 'A' <= c <= 'Z' { assert UPPER[(c - 'A') as int] == c; }
  }

  predicate AllSpaces(s: string) {
    forall i | 0 <= i < |s| :: Space(s[i])
  }

  /** Stripping removes space at the two ends and nothing else. */
  lemma {:induction false} StripIs(s: string) returns (a: string, b: string)
    ensures s == a + Strip(s) + b && AllSpaces(a) && AllSpaces(b) && Trimmed(Strip(s))
    decreases |s|
  {
    StripTrims(s);
    if s == "" {
      a, b := "", "";
    } else if Space(s[0]) {
      var a', b' := StripIs(s[1..]);
      a, b := [s[0]] + a', b';
      InFront(s, a', Strip(s[1..]), b');
    } else if Space(s[|s| - 1]) {
      var a', b' := StripIs(s[..|s| - 1]);
      a, b := a', b' + [s[|s| - 1]];
      Behind(s, a', Strip(s[..|s| - 1]), b');
    } else {
      a, b := "", "";
    }
  }

  lemma InFront(s: string, a: string, m: string, b: string)
    requires s != "" && s[1..] == a + m + b
    ensures s == ([s[0]] + a) + m + b
  {
    assert s == [s[0]] + s[1..];
  }

  lemma Behind(s: string, a: string, m: string, b: string)
    requires s != "" && s[..|s| - 1] == a + m + b
    ensures s == a + m + (b + [s[|s| - 1]])
  {
    assert s == s[..|s| - 1] + [s[|s| - 1]];
  }

  /** The white space of ASCII. */
  lemma SpaceIs(c: char)
    requires c < '\U{80}'
    ensures Space(c) <==> c in " \t\n\r\U{B}\U{C}\U{1C}\U{1D}\U{1E}\U{1F}"
  {
  }

  function Part(s: string): seq<string> {
    if Strip(s) == "" then [] else [Strip(s)]
  }

  lemma {:induction false} SplitFrom(a: string, b: string, current: string)
    requires ',' !in a
    ensures SplitCommas(a + "," + b, current) == Part(current + a) + SplitCommas(b, "")
    ensures SplitCommas(a, current) == Part(current + a)
    decreases |a|
  {
    if a == "" {
      assert a + "," + b == "," + b && ("," + b)[1..] == b && current + a == current;
    } else {
      assert (a + "," + b)[1..] == a[1..] + "," + b && (a + "," + b)[0] == a[0] && a[0] in a;
      assert current + [a[0]] + a[1..] == current + a;
      assert ',' !in a[1..];
      SplitFrom(a[1..], b, current + [a[0]]);
    }
  }

  /** A text is split at its commas; each part is stripped, and dropped if nothing is left. */
  lemma SplitAtCommas(a: string, b: string)
    requires ',' !in a
    ensures SplitCommas(a + "," + b, "") == SplitCommas(a, "") + SplitCommas(b, "")
    ensures SplitCommas(a, "") == if Strip(a) == "" then [] else [Strip(a)]
  {
    SplitFrom(a, b, "");
    assert "" + a == a;
  }

  /** A text that does not occur is not replaced. */
  lemma {:induction false} ReplaceAbsent(s: string, x: string, y: string)
    requires x != "" && !OccursIn(x, s)
    ensures Replace(s, x, y) == s
    decreases |s|
  {
    if s != "" {
      assert s[0..] == s;
      assert !OccursIn(x, s[1..]) by {
        forall k | 0 <= k <= |s| - 1 ensures !(x <= s[1..][k..]) { assert s[1..][k..] == s[k + 1..]; }
      }
      ReplaceAbsent(s[1..], x, y);
    }
  }

  /** `x` stands at position `n` of `s`, and nowhere before. */
  predicate FirstAt(s: string, x: string, n: nat) {
    n <= |s| && x <= s[n..] && forall k | 0 <= k < n :: !(x <= s[k..])
  }

  lemma FirstAtRest(s: string, x: string, n: nat)
    requires FirstAt(s, x, n) && n > 0
    ensures FirstAt(s[1..], x, n - 1) && !(x <= s)
  {
    assert s[0..] == s && s[1..][n - 1..] == s[n..];
    forall k | 0 <= k < n - 1 ensures !(x <= s[1..][k..]) { assert s[1..][k..] == s[k + 1..]; }
  }

  lemma ReplaceHit(s: string, x: string, y: string)
    requires x != "" && x <= s
    ensures Replace(s, x, y) == y + Replace(s[|x|..], x, y)
  {
  }

  lemma ReplaceMiss(s: string, x: string, y: string)
    requires x != "" && s != "" && !(x <= s)
    ensures Replace(s, x, y) == [s[0]] + Replace(s[1..], x, y)
  {
  }

  lemma OneMore(s: string, n: nat, rest: string)
    requires 0 < n <= |s|
    ensures [s[0]] + (s[1..][..n - 1] + rest) == s[..n] + rest
  {
  }

  lemma ReplaceLater(s: string, x: string, y: string, n: nat, rest: string)
    requires x != "" && 0 < n <= |s| && !(x <= s) && Replace(s[1..], x, y) == s[1..][..n - 1] + rest
    ensures Replace(s, x, y) == s[..n] + rest
  {
    ReplaceMiss(s, x, y);
    OneMore(s, n, rest);
  }

  /** The first occurrence is replaced, and the search goes on behind it. */
  lemma {:induction false} ReplaceFirst(s: string, x: string, y: string, n: nat, rest: string)
    requires x != "" && FirstAt(s, x, n) && n + |x| <= |s| && rest == s[n + |x|..]
    ensures Replace(s, x, y) == s[..n] + (y + Replace(rest, x, y))
    decreases n
  {
    if n == 0 {
      assert s[0..] == s;
      ReplaceHit(s, x, y);
    } else {
      FirstAtRest(s, x, n);
      assert s[1..][n - 1 + |x|..] == rest;
      ReplaceFirst(s[1..], x, y, n - 1, rest);
      ReplaceLater(s, x, y, n, y + Replace(rest, x, y));
    }
  }

  lemma SplitTwo(a: string, b: string)
    requires ',' !in a && ',' !in b && Strip(a) != "" && Strip(b) != ""
    ensures SplitCommas(a + "," + b, "") == [Strip(a), Strip(b)]
  {
    SplitAtCommas(a, b);
    SplitAtCommas(b, "");
  }

  lemma {:induction false} ReplaceBySame(s: string, x: string)
    requires x != ""
    ensures Replace(s, x, x) == s
    decreases |s|
  {
    if s == "" {
    } else if x <= s {
      ReplaceBySame(s[|x|..], x);
      assert s == x + s[|x|..];
    } else {
      ReplaceBySame(s[1..], x);
    }
  }

  lemma {:induction false} ReplaceNothing(s: string)
    ensures Replace(s, "", "") == s
    decreases |s|
  {
    if s != "" { ReplaceNothing(s[1..]); }
  }
}

/** Glob patterns with a backslash escape: the `wildcard` query of Elasticsearch (`*`, `?`) and
    SQL's LIKE with ESCAPE '\' (`%`, `_`; section 8.5 of ISO/IEC 9075:1992) share one shape. */
module Patterns {
  import opened Text

  /** The character that stands for any text and the one that stands for any character. */
  datatype Meta = Meta(any: char, one: char)

  const WILDCARD := Meta('*', '?')
  const LIKE := Meta('%', '_')

  predicate Special(m: Meta, c: char) {
    c == '\\' || c == m.any || c == m.one
  }

  predicate Wf(m: Meta) {
    m.any != m.one && m.any != '\\' && m.one != '\\'
  }

  predicate Glob(m: Meta, p: string, s: string)
    decreases |p|
  {
    if p == "" then s == ""
    else if p[0] == '\\' && |p| > 1 then s != "" && s[0] == p[1] && Glob(m, p[2..], s[1..])
    else if p[0] == m.any then exists k | 0 <= k <= |s| :: Glob(m, p[1..], s[k..])
    else s != "" && (p[0] == m.one || p[0] == s[0]) && Glob(m, p[1..], s[1..])
  }

  /** One character at a time: the escape that makes a text match only itself. */
  function Escape(m: Meta, t: string): string {
    if t == "" then "" else (if Special(m, t[0]) then ['\\', t[0]] else [t[0]]) + Escape(m, t[1..])
  }

  /** `_escape_wildcard` and `escape_like_pattern` as written: three replaces in sequence. */
  function EscapeByReplacing(m: Meta, t: string): string {
    Replace(Replace(Replace(t, "\\", "\\\\"), [m.any], ['\\', m.any]), [m.one], ['\\', m.one])
  }

  /** A question mark, and in SQL an underscore, stands for any one character. */
  lemma OneCharacter(s: string)
    ensures Glob(WILDCARD, "?", s) <==> |s| == 1
    ensures Glob(LIKE, "_", s) <==> |s| == 1
  {
    assert "?"[1..] == "" && "_"[1..] == "";
    if s != "" { assert Glob(WILDCARD, "", s[1..]) <==> s[1..] == ""; }
  }

  // ---------------------------------------------------------------- the escape

  lemma ReplaceCharStep(s: string, c: char, sub: string)
    requires s != ""
    ensures Replace(s, [c], sub) == (if s[0] == c then sub else [s[0]]) + Replace(s[1..], [c], sub)
  {
    assert [c] <= s <==> s[0] == c;
  }

  lemma {:induction false} ReplaceCharConcat(a: string, b: string, c: char, sub: string)
    ensures Replace(a + b, [c], sub) == Replace(a, [c], sub) + Replace(b, [c], sub)
    decreases |a|
  {
    if a == "" {
      assert a + b == b;
    } else {
      assert (a + b)[1..] == a[1..] + b;
      ReplaceCharConcat(a[1..], b, c, sub);
      ReplaceCharStep(a, c, sub);
      ReplaceCharStep(a + b, c, sub);
      var head := if a[0] == c then sub else [a[0]];
      assert head + (Replace(a[1..], [c], sub) + Replace(b, [c], sub)) == head + Replace(a[1..], [c], sub) + Replace(b, [c], sub);
    }
  }

  lemma ReplaceOneChar(x: char, c: char, sub: string)
    ensures Replace([x], [c], sub) == if x == c then sub else [x]
  {
    assert [c] <= [x] <==> x == c;
    assert [x][1..] == "";
  }

  /** The three sequential replaces escape every character exactly once. */
  lemma {:induction false} EscapesAgree(m: Meta, t: string)
    requires Wf(m)
    ensures EscapeByReplacing(m, t) == Escape(m, t)
  {
    if t != "" {
      var c := t[0];
      EscapesAgree(m, t[1..]);
      assert t == [c] + t[1..];
      var first := Replace([c], "\\", "\\\\");
      var second := Replace(first, [m.any], ['\\', m.any]);
      ReplaceCharConcat([c], t[1..], '\\', "\\\\");
      ReplaceCharConcat(first, Replace(t[1..], "\\", "\\\\"), m.any, ['\\', m.any]);
      ReplaceCharConcat(second, Replace(Replace(t[1..], "\\", "\\\\"), [m.any], ['\\', m.any]), m.one, ['\\', m.one]);
      EscapesAgreeOnChar(m, c);
    }
  }

  lemma EscapesAgreeOnChar(m: Meta, c: char)
    requires Wf(m)
    ensures EscapeByReplacing(m, [c]) == if Special(m, c) then ['\\', c] else [c]
  {
    ReplaceOneChar(c, '\\', "\\\\");
    ReplaceOneChar(c, m.any, ['\\', m.any]);
    ReplaceOneChar(c, m.one, ['\\', m.one]);
    ReplaceTwoChars('\\', '\\', m.any, ['\\', m.any]);
    ReplaceTwoChars('\\', '\\', m.one, ['\\', m.one]);
    ReplaceTwoChars('\\', m.any, m.one, ['\\', m.one]);
  }

  lemma ReplaceTwoChars(x: char, y: char, c: char, sub: string)
    requires x != c && y != c
    ensures Replace([x, y], [c], sub) == [x, y]
  {
    assert [x, y] == [x] + [y];
    ReplaceCharConcat([x], [y], c, sub);
    ReplaceOneChar(x, c, sub);
    ReplaceOneChar(y, c, sub);
  }

  /** An escaped text at the head of a pattern matches that text and nothing else. */
  lemma {:induction false} EscapedIsLiteral(m: Meta, t: string, p: string, s: string)
    requires Wf(m)
    ensures Glob(m, Escape(m, t) + p, s) <==> t <= s && Glob(m, p, s[|t|..])
    decreases |t|
  {
    if t == "" {
      assert Escape(m, t) + p == p;
      assert s[0..] == s;
    } else {
      var rest := Escape(m, t[1..]) + p;
      var whole := Escape(m, t) + p;
      if Special(m, t[0]) {
        assert whole == ['\\', t[0]] + rest;
        assert whole[2..] == rest;
      } else {
        assert whole == [t[0]] + rest;
        assert whole[1..] == rest;
      }
      if s != "" {
        EscapedIsLiteral(m, t[1..], p, s[1..]);
        assert t <= s <==> t[0] == s[0] && t[1..] <= s[1..];
        if t <= s {
          assert s[1..][|t| - 1..] == s[|t|..];
        }
      }
    }
  }

  lemma AnyMatchesAll(m: Meta, s: string)
    requires Wf(m)
    ensures Glob(m, [m.any], s)
  {
    assert [m.any][1..] == "" && s[|s|..] == "";
    assert Glob(m, "", s[|s|..]);
  }

  lemma AnyThen(m: Meta, p: string, s: string)
    requires Wf(m)
    ensures Glob(m, [m.any] + p, s) <==> exists k | 0 <= k <= |s| :: Glob(m, p, s[k..])
  {
    assert ([m.any] + p)[1..] == p;
  }

  /** `esc(t)` followed by the any-text character is exactly "starts with t". */
  lemma PrefixPattern(m: Meta, t: string, s: string)
    requires Wf(m)
    ensures Glob(m, Escape(m, t) + [m.any], s) <==> t <= s
  {
    EscapedIsLiteral(m, t, [m.any], s);
    if t <= s { AnyMatchesAll(m, s[|t|..]); }
  }

  /** The any-text character followed by `esc(t)` is exactly "ends with t". */
  lemma SuffixPattern(m: Meta, t: string, s: string)
    requires Wf(m)
    ensures Glob(m, [m.any] + Escape(m, t), s) <==> EndsWith(s, t)
  {
    AnyThen(m, Escape(m, t), s);
    forall k | 0 <= k <= |s|
      ensures Glob(m, Escape(m, t), s[k..]) <==> s[k..] == t
    {
      EscapedIsLiteral(m, t, "", s[k..]);
      assert Escape(m, t) + "" == Escape(m, t);
    }
    if EndsWith(s, t) { assert s[|s| - |t|..] == t; }
  }

  /** `esc(t)` between two any-text characters is exactly "t occurs". */
  lemma InfixPattern(m: Meta, t: string, s: string)
    requires Wf(m)
    ensures Glob(m, [m.any] + Escape(m, t) + [m.any], s) <==> OccursIn(t, s)
  {
    var p := Escape(m, t) + [m.any];
    assert [m.any] + Escape(m, t) + [m.any] == [m.any] + p;
    AnyThen(m, p, s);
    forall k | 0 <= k <= |s|
      ensures Glob(m, p, s[k..]) <==> t <= s[k..]
    {
      PrefixPattern(m, t, s[k..]);
    }
  }

  /** Folding case commutes with escaping, because no special character is a letter. */
  lemma {:induction false} LowerEscape(m: Meta, t: string)
    requires forall c | Special(m, c) || Special(m, LowerChar(c)) :: LowerChar(c) == c
    ensures Lower(Escape(m, t)) == Escape(m, Lower(t))
  {
    if t != "" {
      LowerEscape(m, t[1..]);
      assert Lower(t)[1..] == Lower(t[1..]);
      var head := if Special(m, t[0]) then ['\\', t[0]] else [t[0]];
      LowerConcat(head, Escape(m, t[1..]));
      assert Special(m, LowerChar(t[0])) <==> Special(m, t[0]);
      assert Lower(head) == if Special(m, t[0]) then ['\\', LowerChar(t[0])] else [LowerChar(t[0])];
    }
  }
}
