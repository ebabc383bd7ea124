/** Variable references inside texts, `{id@name}` with any number of braces and with blanks
    around (agent/dsl_migration.py, `VARIABLE_REF_PATTERN`), and their renaming. */
module References {
  import opened Text

  type Ids = map<string, string>

  function Look(ids: Ids, id: string): string {
    if id in ids then ids[id] else id
  }

  datatype Class = Opening | Blank | IdChar | VarChar | Closing

  predicate AlphaNum(c: char) {
    'A' <= c <= 'Z' || 'a' <= c <= 'z' || '0' <= c <= '9'
  }

  predicate In(k: Class, c: char) {
    match k
    case Opening => c == '{'
    case Blank => Space(c)
    case IdChar => AlphaNum(c) || c == ':' || c == '_' || c == '-'
    case VarChar => AlphaNum(c) || c == '_' || c == '.' || c == '-'
    case Closing => c == '}'
  }

  predicate AllIn(k: Class, s: string) {
    forall i | 0 <= i < |s| :: In(k, s[i])
  }

  /** The text goes on with a character outside the class, or ends. */
  predicate Stops(k: Class, s: string) {
    s == "" || !In(k, s[0])
  }

  /** The longest run of a class, and the rest. */
  function Run(k: Class, s: string): (r: (string, string))
    ensures r.0 + r.1 == s && AllIn(k, r.0) && Stops(k, r.1)
  {
    if s == "" || !In(k, s[0]) then ("", s)
    else
      var r := Run(k, s[1..]);
      assert ([s[0]] + r.0) + r.1 == [s[0]] + (r.0 + r.1) == s;
      ([s[0]] + r.0, r.1)
  }

  /** One reference. The character classes of the pattern's consecutive parts are disjoint, so
      each part is the longest run and no backtracking finds another match. */
  datatype Ref = Ref(opening: string, pad: string, id: string, name: string, endPad: string, closing: string) {
    function Written(): string {
      opening + (pad + (id + ("@" + (name + (endPad + closing)))))
    }

    predicate Wf() {
      && opening != "" && AllIn(Opening, opening) && AllIn(Blank, pad) && id != "" && AllIn(IdChar, id)
      && name != "" && AllIn(VarChar, name) && AllIn(Blank, endPad) && closing != "" && AllIn(Closing, closing)
    }
  }

  datatype Match = NoMatch | Found(ref: Ref, tail: string)

  /** The reference that starts a text, and what follows it. */
  function RefAt(s: string): Match {
    var (opening, rest) := Run(Opening, s);
    if opening == "" then NoMatch else Body(opening, rest)
  }

  /** What follows the opening braces. */
  function Body(opening: string, s: string): Match {
    var (pad, s1) := Run(Blank, s);
    var (id, s2) := Run(IdChar, s1);
    if id == "" || s2 == "" || s2[0] != '@' then NoMatch else Name(opening, pad, id, s2[1..])
  }

  /** What follows the `@`. */
  function Name(opening: string, pad: string, id: string, s: string): Match {
    var (name, s1) := Run(VarChar, s);
    var (endPad, s2) := Run(Blank, s1);
    var (closing, tail) := Run(Closing, s2);
    if name == "" || closing == "" then NoMatch else Found(Ref(opening, pad, id, name, endPad, closing), tail)
  }

  // ---------------------------------------------------------------- reading and writing

  lemma {:induction false} RunIs(k: Class, u: string, s: string)
    requires AllIn(k, u) && Stops(k, s)
    ensures Run(k, u + s) == (u, s)
  {
    if u == "" {
      assert u + s == s;
    } else {
      assert (u + s)[1..] == u[1..] + s && (u + s)[0] == u[0];
      RunIs(k, u[1..], s);
      assert [u[0]] + u[1..] == u;
    }
  }

  function AfterName(r: Ref, tail: string): string {
    r.name + (r.endPad + (r.closing + tail))
  }

  lemma WrittenThen(r: Ref, tail: string)
    ensures r.Written() + tail == r.opening + (r.pad + (r.id + ("@" + AfterName(r, tail))))
  {
  }

  lemma NameOf(r: Ref, tail: string)
    requires r.Wf() && Stops(Closing, tail)
    ensures Name(r.opening, r.pad, r.id, AfterName(r, tail)) == Found(r, tail)
  {
    var s2 := r.closing + tail;
    var s1 := r.endPad + s2;
    assert Stops(Blank, s2) by { assert s2[0] == r.closing[0]; }
    assert Stops(VarChar, s1) by { assert s1[0] == if r.endPad != "" then r.endPad[0] else s2[0]; }
    RunIs(VarChar, r.name, s1);
    RunIs(Blank, r.endPad, s2);
    RunIs(Closing, r.closing, tail);
  }

  lemma BodyOf(r: Ref, s3: string)
    requires r.Wf()
    ensures Body(r.opening, r.pad + (r.id + ("@" + s3))) == Name(r.opening, r.pad, r.id, s3)
  {
    var s2 := "@" + s3;
    var s1 := r.id + s2;
    assert Stops(Blank, s1) by { assert s1[0] == r.id[0]; }
    RunIs(Blank, r.pad, s1);
    RunIs(IdChar, r.id, s2);
    assert s2[1..] == s3;
  }

  /** A written reference is read back, whatever follows. */
  lemma RefWritten(r: Ref, tail: string)
    requires r.Wf() && Stops(Closing, tail)
    ensures RefAt(r.Written() + tail) == Found(r, tail)
  {
    var rest := r.pad + (r.id + ("@" + AfterName(r, tail)));
    WrittenThen(r, tail);
    assert Stops(Opening, rest) by { assert rest[0] == if r.pad != "" then r.pad[0] else r.id[0]; }
    RunIs(Opening, r.opening, rest);
    BodyOf(r, AfterName(r, tail));
    NameOf(r, tail);
  }

  lemma NameRead(opening: string, pad: string, id: string, s: string)
    requires Name(opening, pad, id, s).Found?
    ensures var m := Name(opening, pad, id, s);
            && m.ref.opening == opening && m.ref.pad == pad && m.ref.id == id
            && m.ref.name != "" && AllIn(VarChar, m.ref.name) && AllIn(Blank, m.ref.endPad)
            && m.ref.closing != "" && AllIn(Closing, m.ref.closing)
            && s == AfterName(m.ref, m.tail) && Stops(Closing, m.tail)
  {
  }

  lemma BodyIsName(opening: string, s: string) returns (pad: string, id: string, rest: string)
    requires Body(opening, s).Found?
    ensures s == pad + (id + ("@" + rest)) && AllIn(Blank, pad) && id != "" && AllIn(IdChar, id)
    ensures Body(opening, s) == Name(opening, pad, id, rest)
  {
    var (p, s1) := Run(Blank, s);
    var (i, s2) := Run(IdChar, s1);
    pad, id, rest := p, i, s2[1..];
    assert s2 == "@" + rest;
  }

  lemma BodyRead(opening: string, s: string)
    requires Body(opening, s).Found? && opening != "" && AllIn(Opening, opening)
    ensures var m := Body(opening, s);
            m.ref.opening == opening && m.ref.Wf() && Stops(Closing, m.tail)
            && s == m.ref.pad + (m.ref.id + ("@" + AfterName(m.ref, m.tail)))
  {
    var pad, id, rest := BodyIsName(opening, s);
    NameRead(opening, pad, id, rest);
  }

  ghost predicate Reads(m: Match, s: string) {
    m.Found? ==> m.ref.Wf() && s == m.ref.Written() + m.tail && Stops(Closing, m.tail)
  }

  /** What is read is what is written there. */
  lemma RefRead(s: string)
    ensures Reads(RefAt(s), s)
  {
    var m := RefAt(s);
    if m.Found? {
      var (opening, rest) := Run(Opening, s);
      BodyRead(opening, rest);
      WrittenThen(m.ref, m.tail);
    }
  }

  /** Whichever way the pattern matches at the start of a text, the search finds that
      reference, only with all of the closing braces. */
  lemma AnyMatchIsFound(r: Ref, tail: string)
    requires r.Wf()
    ensures var m := RefAt(r.Written() + tail);
            && m.Found? && m.ref.(closing := "") == r.(closing := "")
            && m.ref.closing + m.tail == r.closing + tail && r.closing <= m.ref.closing
  {
    var (more, rest) := Run(Closing, tail);
    var longest := r.(closing := r.closing + more);
    assert r.closing + (more + rest) == longest.closing + rest;
    WrittenThen(r, tail);
    WrittenThen(longest, rest);
    RefWritten(longest, rest);
  }

  // ---------------------------------------------------------------- substitution

  ghost predicate Sound(find: string -> Match) {
    forall s :: Reads(find(s), s)
  }

  /** How a search recognises a reference at the start of a text. */
  type Finder = find: string -> Match | Sound(find) witness _ => NoMatch

  function Finding(): Finder {
    assert Sound(RefAt) by {
      forall s ensures Reads(RefAt(s), s) { RefRead(s); }
    }
    RefAt
  }

  function RenameRef(ids: Ids, r: Ref): Ref {
    r.(id := Look(ids, r.id))
  }

  lemma Shorter(find: Finder, s: string)
    requires find(s).Found?
    ensures |find(s).tail| < |s| && s != "" && s[0] == '{'
  {
    var m := find(s);
    assert Reads(m, s);
    assert m.ref.Written()[0] == m.ref.opening[0];
  }

  /** `VARIABLE_REF_PATTERN.sub`. */
  function Sub(find: Finder, ids: Ids, s: string): string
    decreases |s|
  {
    var m := find(s);
    if s == "" then ""
    else if m.Found? then
      Shorter(find, s);
      RenameRef(ids, m.ref).Written() + Sub(find, ids, m.tail)
    else [s[0]] + Sub(find, ids, s[1..])
  }

  /** A text as the sequence of its references and of the characters between them. */
  datatype Token = Plain(c: char) | Reference(ref: Ref)

  function Tokens(find: Finder, s: string): seq<Token>
    decreases |s|
  {
    var m := find(s);
    if s == "" then []
    else if m.Found? then
      Shorter(find, s);
      [Reference(m.ref)] + Tokens(find, m.tail)
    else [Plain(s[0])] + Tokens(find, s[1..])
  }

  function RenameTokens(ids: Ids, ts: seq<Token>): (r: seq<Token>)
    ensures |r| == |ts|
    ensures forall i | 0 <= i < |ts| :: r[i] == if ts[i].Plain? then ts[i] else Reference(RenameRef(ids, ts[i].ref))
  {
    seq(|ts|, i requires 0 <= i < |ts| => if ts[i].Plain? then ts[i] else Reference(RenameRef(ids, ts[i].ref)))
  }

  // ---------------------------------------------------------------- what substitution keeps

  /** Renaming turns well-formed ids into well-formed ids. */
  ghost predicate KeepsShape(ids: Ids) {
    forall k | k in ids && k != "" && AllIn(IdChar, k) :: ids[k] != "" && AllIn(IdChar, ids[k])
  }

  ghost predicate Fixed(ids: Ids) {
    forall k | k in ids :: ids[k] == k
  }

  /** Whatever is written is found. */
  ghost predicate CompleteAt(find: Finder, r: Ref, tail: string) {
    r.Wf() && Stops(Closing, tail) ==> find(r.Written() + tail) == Found(r, tail)
  }

  ghost predicate Complete(find: Finder) {
    forall r: Ref, tail :: CompleteAt(find, r, tail)
  }

  /** Where no reference starts, substitution behind that place does not make one. */
  ghost predicate QuietAt(find: Finder, ids: Ids, s: string) {
    s != "" && find(s).NoMatch? ==> find(Sub(find, ids, s)).NoMatch?
  }

  ghost predicate Quiet(find: Finder, ids: Ids) {
    forall s :: QuietAt(find, ids, s)
  }

  lemma SubKeepsHead(find: Finder, ids: Ids, s: string)
    ensures s == "" ==> Sub(find, ids, s) == ""
    ensures s != "" ==> Sub(find, ids, s) != "" && Sub(find, ids, s)[0] == s[0]
  {
    var m := find(s);
    if s != "" && m.Found? {
      Shorter(find, s);
      assert Reads(m, s);
      assert RenameRef(ids, m.ref).Written()[0] == m.ref.opening[0] == m.ref.Written()[0] == s[0];
    }
  }

  lemma TokensOfRef(find: Finder, r: Ref, tail: string)
    requires r.Wf() && find(r.Written() + tail) == Found(r, tail)
    ensures Tokens(find, r.Written() + tail) == [Reference(r)] + Tokens(find, tail)
  {
    assert r.Written() + tail != "" by { assert |r.Written()| >= |r.opening|; }
  }

  lemma RenamedCons(ids: Ids, t: Token, ts: seq<Token>)
    ensures RenameTokens(ids, [t] + ts) == RenameTokens(ids, [t]) + RenameTokens(ids, ts)
  {
  }

  lemma TokensOfPlain(find: Finder, c: char, s: string)
    requires find([c] + s).NoMatch?
    ensures Tokens(find, [c] + s) == [Plain(c)] + Tokens(find, s)
  {
    assert ([c] + s)[1..] == s;
  }

  /** Substitution renames every reference, and nothing else: reading the result gives the
      tokens of the original with their ids renamed. */
  lemma {:induction false} TokensRenamed(find: Finder, ids: Ids, s: string)
    requires KeepsShape(ids) && Complete(find) && Quiet(find, ids)
    ensures Tokens(find, Sub(find, ids, s)) == RenameTokens(ids, Tokens(find, s))
    decreases |s|
  {
    var m := find(s);
    if s == "" {
    } else if m.Found? {
      Shorter(find, s);
      assert Reads(m, s);
      var q, rest := RenameRef(ids, m.ref), Sub(find, ids, m.tail);
      SubKeepsHead(find, ids, m.tail);
      assert q.Wf() && Stops(Closing, rest) && CompleteAt(find, q, rest);
      TokensOfRef(find, q, rest);
      TokensRenamed(find, ids, m.tail);
      RenamedCons(ids, Reference(m.ref), Tokens(find, m.tail));
    } else {
      var rest := Sub(find, ids, s[1..]);
      assert QuietAt(find, ids, s);
      assert Sub(find, ids, s) == [s[0]] + rest;
      TokensOfPlain(find, s[0], rest);
      TokensRenamed(find, ids, s[1..]);
      RenamedCons(ids, Plain(s[0]), Tokens(find, s[1..]));
    }
  }

  lemma {:induction false} SubFixed(find: Finder, ids: Ids, s: string)
    requires Fixed(ids)
    ensures Sub(find, ids, s) == s
    decreases |s|
  {
    var m := find(s);
    if s == "" {
    } else if m.Found? {
      Shorter(find, s);
      assert Reads(m, s);
      SubFixed(find, ids, m.tail);
      assert RenameRef(ids, m.ref) == m.ref;
    } else {
      SubFixed(find, ids, s[1..]);
    }
  }

  // ---------------------------------------------------------------- no new references

  predicate NoOpening(u: string) {
    forall i | 0 <= i < |u| :: u[i] != '{'
  }

  predicate AtOpening(x: string) {
    x == "" || x[0] == '{'
  }

  lemma NotOpening(k: Class)
    requires k != Opening
    ensures !In(k, '{')
  {
    match k
    case Blank =>
    case IdChar =>
    case VarChar =>
    case Closing =>
  }

  /** A run of any other class stays before an opening brace. */
  lemma {:induction false} RunBefore(k: Class, u: string, x: string)
    requires k != Opening && AtOpening(x)
    ensures Run(k, u + x) == (Run(k, u).0, Run(k, u).1 + x)
  {
    if u == "" {
      NotOpening(k);
      assert u + x == x && Run(k, x) == ("", x) && Run(k, u) == ("", "");
    } else {
      assert (u + x)[1..] == u[1..] + x && (u + x)[0] == u[0];
      RunBefore(k, u[1..], x);
    }
  }

  lemma NameBefore(opening: string, pad: string, id: string, p: string, q: string, i: string, u: string, x: string)
    requires AtOpening(x)
    ensures Name(opening, pad, id, u + x).Found? <==> Name(p, q, i, u).Found?
  {
    RunBefore(VarChar, u, x);
    var u1 := Run(VarChar, u).1;
    RunBefore(Blank, u1, x);
    RunBefore(Closing, Run(Blank, u1).1, x);
  }

  /** Whether a body matches depends only on the text before the next opening brace. */
  lemma BodyBefore(opening: string, u: string, x: string)
    requires AtOpening(x) && NoOpening(u)
    ensures Body(opening, u + x).Found? <==> Body("{", u).Found?
  {
    RunBefore(Blank, u, x);
    var (pad, u1) := Run(Blank, u);
    RunBefore(IdChar, u1, x);
    var (id, u2) := Run(IdChar, u1);
    if u2 != "" && u2[0] == '@' {
      assert (u2 + x)[1..] == u2[1..] + x;
      NameBefore(opening, pad, id, "{", pad, id, u2[1..], x);
    }
  }

  lemma {:induction false} SubBefore(find: Finder, ids: Ids, u: string, x: string)
    requires NoOpening(u)
    ensures Sub(find, ids, u + x) == u + Sub(find, ids, x)
  {
    if u == "" {
      assert u + x == x && u + Sub(find, ids, x) == Sub(find, ids, x);
    } else {
      assert (u + x)[0] == u[0] && (u + x)[1..] == u[1..] + x;
      SubPlain(find, ids, u + x);
      SubBefore(find, ids, u[1..], x);
      Regroup(u, Sub(find, ids, x));
    }
  }

  lemma SubPlain(find: Finder, ids: Ids, s: string)
    requires s != "" && s[0] != '{'
    ensures Sub(find, ids, s) == [s[0]] + Sub(find, ids, s[1..])
  {
    if find(s).Found? {
      Shorter(find, s);
      assert false;
    }
  }

  lemma Regroup(u: string, x: string)
    requires u != ""
    ensures [u[0]] + (u[1..] + x) == u + x
  {
  }

  lemma {:induction false} NextOpening(s: string) returns (u: string, x: string)
    ensures s == u + x && NoOpening(u) && AtOpening(x)
  {
    if s == "" || s[0] == '{' {
      u, x := "", s;
    } else {
      u, x := NextOpening(s[1..]);
      u := [s[0]] + u;
    }
  }

  /** One more opening brace in front makes no difference. */
  lemma OneMoreBrace(s: string)
    requires s != "" && s[0] == '{'
    ensures RefAt("{" + s).Found? <==> RefAt(s).Found?
  {
    var t := "{" + s;
    assert t[1..] == s;
    var (a, rest) := Run(Opening, s);
    assert Run(Opening, t) == ("{" + a, rest);
    AnyOpening("{" + a, a, rest);
  }

  lemma AnyOpening(a: string, b: string, s: string)
    ensures Body(a, s).Found? <==> Body(b, s).Found?
  {
  }

  lemma OneBrace(s: string)
    requires Stops(Opening, s)
    ensures RefAt("{" + s) == Body("{", s)
  {
    RunIs(Opening, "{", s);
  }

  /** Behind a single opening brace. */
  lemma NoNewBody(ids: Ids, s: string)
    requires Stops(Opening, s) && RefAt("{" + s).NoMatch?
    ensures RefAt("{" + Sub(Finding(), ids, s)).NoMatch?
  {
    var find := Finding();
    var rest := Sub(find, ids, s);
    SubKeepsHead(find, ids, s);
    OneBrace(s);
    OneBrace(rest);
    var u, x := NextOpening(s);
    BodyBefore("{", u, x);
    SubBefore(find, ids, u, x);
    SubKeepsHead(find, ids, x);
    BodyBefore("{", u, Sub(find, ids, x));
  }

  lemma SubOfNone(ids: Ids, s: string)
    requires s != "" && RefAt(s).NoMatch?
    ensures Sub(Finding(), ids, s) == [s[0]] + Sub(Finding(), ids, s[1..])
  {
  }

  lemma NoBraceNoRef(s: string)
    requires s != "" && s[0] != '{'
    ensures RefAt(s).NoMatch?
  {
  }

  lemma {:induction false} NoNewRef(ids: Ids, s: string)
    requires s != "" && RefAt(s).NoMatch?
    ensures RefAt(Sub(Finding(), ids, s)).NoMatch?
    decreases |s|
  {
    var rest := Sub(Finding(), ids, s[1..]);
    SubOfNone(ids, s);
    if s[0] != '{' {
      NoBraceNoRef([s[0]] + rest);
    } else {
      assert s == "{" + s[1..];
      if s[1..] != "" && s[1] == '{' {
        OneMoreBrace(s[1..]);
        SubKeepsHead(Finding(), ids, s[1..]);
        NoNewRef(ids, s[1..]);
        OneMoreBrace(rest);
      } else {
        NoNewBody(ids, s[1..]);
      }
    }
  }

  /** The pattern's own instance: substitution commutes with reading. */
  lemma SubRenamesTokens(ids: Ids, s: string)
    requires KeepsShape(ids)
    ensures Tokens(Finding(), Sub(Finding(), ids, s)) == RenameTokens(ids, Tokens(Finding(), s))
  {
    var find := Finding();
    assert Complete(find) by {
      forall r: Ref, tail ensures CompleteAt(find, r, tail) {
        if r.Wf() && Stops(Closing, tail) { RefWritten(r, tail); }
      }
    }
    assert Quiet(find, ids) by {
      forall t ensures QuietAt(find, ids, t) {
        if t != "" && RefAt(t).NoMatch? { NoNewRef(ids, t); }
      }
    }
    TokensRenamed(find, ids, s);
  }

  // ---------------------------------------------------------------- texts left alone

  /** No reference of the text names an id that is renamed. */
  ghost predicate NamesNone(ids: Ids, ts: seq<Token>) {
    forall i | 0 <= i < |ts| && ts[i].Reference? :: Look(ids, ts[i].ref.id) == ts[i].ref.id
  }

  lemma {:induction false} SubKeeps(find: Finder, ids: Ids, s: string)
    requires NamesNone(ids, Tokens(find, s))
    ensures Sub(find, ids, s) == s
    decreases |s|
  {
    var m := find(s);
    if s == "" {
    } else if m.Found? {
      Shorter(find, s);
      assert Reads(m, s);
      var ts := Tokens(find, s);
      assert ts[0] == Reference(m.ref) && ts[1..] == Tokens(find, m.tail);
      Later(ids, ts);
      SubKeeps(find, ids, m.tail);
      assert RenameRef(ids, m.ref) == m.ref;
    } else {
      var ts := Tokens(find, s);
      assert ts[1..] == Tokens(find, s[1..]);
      Later(ids, ts);
      SubKeeps(find, ids, s[1..]);
    }
  }

  lemma Later(ids: Ids, ts: seq<Token>)
    requires ts != [] && NamesNone(ids, ts)
    ensures NamesNone(ids, ts[1..])
  {
    assert forall i | 0 <= i < |ts| - 1 :: ts[1..][i] == ts[i + 1];
  }

  /** Substitution leaves a text as it is exactly when none of its references is renamed. */
  lemma SubUnchangedIff(ids: Ids, s: string)
    requires KeepsShape(ids)
    ensures Sub(Finding(), ids, s) == s <==> NamesNone(ids, Tokens(Finding(), s))
  {
    var find := Finding();
    var ts := Tokens(find, s);
    if NamesNone(ids, ts) { SubKeeps(find, ids, s); }
    if Sub(find, ids, s) == s {
      SubRenamesTokens(ids, s);
      Unrenamed(ids, ts);
    }
  }

  lemma Unrenamed(ids: Ids, ts: seq<Token>)
    requires RenameTokens(ids, ts) == ts
    ensures NamesNone(ids, ts)
  {
    forall i | 0 <= i < |ts| && ts[i].Reference? ensures Look(ids, ts[i].ref.id) == ts[i].ref.id {
      assert RenameTokens(ids, ts)[i] == Reference(RenameRef(ids, ts[i].ref));
    }
  }

  // ---------------------------------------------------------------- the characters

  lemma CapitalIs(c: char)
    ensures 'A' <= c <= 'Z' <==> c in UPPER
  {
    if 'A' <= c <= 'Z' { assert UPPER[(c - 'A') as int] == c; }
  }

  lemma SmallIs(c: char)
    ensures 'a' <= c <= 'z' <==> c in LOWER
  {
    if 'a' <= c <= 'z' { assert LOWER[(c - 'a') as int] == c; }
  }

  lemma NumeralIs(c: char)
    ensures '0' <= c <= '9' <==> c in "0123456789"
  {
  }

  lemma AlphaNumIs(c: char)
    ensures AlphaNum(c) <==> c in UPPER || c in LOWER || c in "0123456789"
  {
    CapitalIs(c);
    SmallIs(c);
    NumeralIs(c);
  }

  /** The characters of ids and of variable names, as the pattern lists them. */
  lemma ClassesAre(c: char)
    ensures In(IdChar, c) <==> c in UPPER || c in LOWER || c in "0123456789" || c in ":_-"
    ensures In(VarChar, c) <==> c in UPPER || c in LOWER || c in "0123456789" || c in "_.-"
  {
    AlphaNumIs(c);
  }
}
