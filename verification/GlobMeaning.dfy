/** The compiled expression denotes the glob: what the passes build, how it parses, and when the meaning is kept. */
module GlobMeaning {
  import opened Prelude
  import opened Glob

  // ---- The passes ----------------------------------------------------------------------------------------------

  lemma {:induction false} ReplaceCharConcat(a: string, b: string, c: char, with: string)
    ensures ReplaceAll(a + b, [c], with) == ReplaceAll(a, [c], with) + ReplaceAll(b, [c], with)
  {
    if |a| == 0 {
      assert a + b == b;
    } else {
      var head := if a[0] == c then with else [a[0]];
      var ra, rb := ReplaceAll(a[1..], [c], with), ReplaceAll(b, [c], with);
      calc {
        ReplaceAll(a + b, [c], with);
        { ReplaceCharStep(a + b, c, with); assert (a + b)[1..] == a[1..] + b; }
        head + ReplaceAll(a[1..] + b, [c], with);
        { ReplaceCharConcat(a[1..], b, c, with); }
        head + (ra + rb);
        (head + ra) + rb;
        { ReplaceCharStep(a, c, with); }
        ReplaceAll(a, [c], with) + rb;
      }
    }
  }

  lemma ReplaceCharStep(s: string, c: char, with: string)
    requires |s| > 0
    ensures ReplaceAll(s, [c], with) == (if s[0] == c then with else [s[0]]) + ReplaceAll(s[1..], [c], with)
  {
  }

  lemma {:induction false} ReplaceAbsent(s: string, c: char, with: string)
    requires c !in s
    ensures ReplaceAll(s, [c], with) == s
  {
    if |s| > 0 {
      ReplaceAbsent(s[1..], c, with);
    }
  }

  lemma {:induction false} EscapedConcat(a: string, b: string, specials: string)
    ensures Escaped(a + b, specials) == Escaped(a, specials) + Escaped(b, specials)
    decreases |specials|
  {
    if |specials| > 0 {
      var c := specials[0];
      ReplaceCharConcat(a, b, c, ['\\', c]);
      EscapedConcat(ReplaceAll(a, [c], ['\\', c]), ReplaceAll(b, [c], ['\\', c]), specials[1..]);
    }
  }

  lemma {:induction false} EscapedAbsent(s: string, specials: string)
    requires forall c :: c in s ==> c !in specials
    ensures Escaped(s, specials) == s
    decreases |specials|
  {
    if |specials| > 0 {
      assert specials[0] !in s;
      ReplaceAbsent(s, specials[0], ['\\', specials[0]]);
      EscapedAbsent(s, specials[1..]);
    }
  }

  lemma {:induction false} EscapedChar(c: char, specials: string)
    requires NoDup(specials) && '\\' !in specials
    ensures Escaped([c], specials) == if c in specials then ['\\', c] else [c]
    decreases |specials|
  {
    if |specials| > 0 {
      var d := specials[0];
      assert specials == [d] + specials[1..];
      if c == d {
        assert ReplaceAll([c], [d], ['\\', d]) == ['\\', c] + ReplaceAll([], [d], ['\\', d]) == ['\\', c];
        assert c !in specials[1..];
        EscapedAbsent(['\\', c], specials[1..]);
      } else {
        ReplaceAbsent([c], d, ['\\', d]);
        EscapedChar(c, specials[1..]);
      }
    }
  }

  function Esc(c: char): string {
    if c in SPECIALS then ['\\', c] else [c]
  }

  lemma SpecialsAreDistinct()
    ensures NoDup(SPECIALS) && '\\' !in SPECIALS && '*' !in SPECIALS && MARK !in SPECIALS
  {
  }

  /** The nine escaping passes together escape character by character. */
  lemma EscapedOneByOne(s: string, specials: string)
    requires |s| > 0 && specials == SPECIALS
    ensures Escaped(s, specials) == Esc(s[0]) + Escaped(s[1..], specials)
  {
    assert s == [s[0]] + s[1..];
    SpecialsAreDistinct();
    EscapedConcat([s[0]], s[1..], specials);
    EscapedChar(s[0], specials);
  }

  /** A token sequence with texts for its wildcards. */
  function Rendered(tokens: seq<Token>, star: string, doubleStar: string): string {
    if |tokens| == 0 then ""
    else RenderedToken(tokens[0], star, doubleStar) + Rendered(tokens[1..], star, doubleStar)
  }

  function RenderedToken(t: Token, star: string, doubleStar: string): string {
    match t
    case Lit(c) => Esc(c)
    case Star => star
    case DoubleStar => doubleStar
  }

  predicate LitsAvoid(tokens: seq<Token>, c: char) {
    forall i :: 0 <= i < |tokens| ==> tokens[i] != Lit(c)
  }

  lemma {:induction false} TokensAreLiterals(path: string, c: char)
    requires c !in path || c == '*'
    ensures LitsAvoid(Tokens(path), c)
    decreases |path|
  {
    if |path| > 0 {
      if StartsWith(path, "**") {
        TokensAreLiterals(path[2..], c);
      } else {
        TokensAreLiterals(path[1..], c);
      }
    }
  }

  lemma SkipOne(x: char, s: string, what: string, with: string)
    requires |what| > 0 && !StartsWith([x] + s, what)
    ensures ReplaceAll([x] + s, what, with) == [x] + ReplaceAll(s, what, with)
  {
    assert ([x] + s)[1..] == s;
  }

  lemma TakeOne(s: string, what: string, with: string)
    requires |what| > 0
    ensures ReplaceAll(what + s, what, with) == with + ReplaceAll(s, what, with)
  {
    assert StartsWith(what + s, what) && (what + s)[|what|..] == s;
  }

  /** Text without the first character of the searched string is passed over. */
  lemma {:induction false} SkipText(a: string, b: string, what: string, with: string)
    requires |what| > 0 && what[0] !in a
    ensures ReplaceAll(a + b, what, with) == a + ReplaceAll(b, what, with)
  {
    if |a| == 0 {
      assert a + b == b;
    } else {
      SkipText(a[1..], b, what, with);
      assert a + b == [a[0]] + (a[1..] + b);
      SkipOne(a[0], a[1..] + b, what, with);
    }
  }

  /** A single star in front of escaped text that does not start with a star. */
  lemma LoneStar(rest: string, with: string)
    requires |rest| > 0 ==> rest[0] != '*'
    ensures ReplaceAll("*" + rest, "**", with) == "*" + ReplaceAll(rest, "**", with)
  {
    assert !StartsWith(['*'] + rest, "**") by {
      if |rest| > 0 {
        assert (['*'] + rest)[..2] == ['*', rest[0]];
      }
    }
    SkipOne('*', rest, "**", with);
  }

  lemma EscapedStart(path: string, specials: string)
    requires specials == SPECIALS && (|path| > 0 ==> path[0] != '*')
    ensures |Escaped(path, specials)| > 0 ==> Escaped(path, specials)[0] != '*'
  {
    if |path| > 0 {
      EscapedOneByOne(path, specials);
    } else {
      EscapedAbsent("", specials);
    }
  }

  lemma PairOfStars(path: string, specials: string)
    requires specials == SPECIALS && StartsWith(path, "**")
    ensures Escaped(path, specials) == "**" + Escaped(path[2..], specials)
  {
    assert path[0] == path[..2][0] && path[1] == path[..2][1];
    StarStays(path, specials);
    StarStays(path[1..], specials);
    assert path[1..][1..] == path[2..];
    StarsJoin(Escaped(path[2..], specials));
  }

  lemma StarsJoin(text: string)
    ensures "*" + ("*" + text) == "**" + text
  {
  }

  lemma StarStays(path: string, specials: string)
    requires specials == SPECIALS && |path| > 0 && path[0] == '*'
    ensures Escaped(path, specials) == "*" + Escaped(path[1..], specials)
  {
    EscapedOneByOne(path, specials);
    SpecialsAreDistinct();
  }

  lemma {:induction false} FirstPass(path: string, specials: string, with: string)
    requires specials == SPECIALS
    ensures ReplaceAll(Escaped(path, specials), "**", with) == Rendered(Tokens(path), "*", with)
    decreases |path|
  {
    if |path| == 0 {
      EscapedAbsent("", specials);
    } else if StartsWith(path, "**") {
      FirstPass(path[2..], specials, with);
      PairOfStars(path, specials);
      TakeOne(Escaped(path[2..], specials), "**", with);
    } else {
      var rest := Escaped(path[1..], specials);
      FirstPass(path[1..], specials, with);
      EscapedOneByOne(path, specials);
      SpecialsAreDistinct();
      if path[0] == '*' {
        if |path| > 1 {
          assert path[..2] == [path[0], path[1]];
        }
        EscapedStart(path[1..], specials);
        LoneStar(rest, with);
      } else {
        SkipText(Esc(path[0]), rest, "**", with);
      }
    }
  }

  lemma {:induction false} SecondPass(tokens: seq<Token>)
    requires LitsAvoid(tokens, '*')
    ensures ReplaceAll(Rendered(tokens, "*", PLACEHOLDER), "*", "[^/]*") == Rendered(tokens, "[^/]*", PLACEHOLDER)
  {
    if |tokens| > 0 {
      SecondPass(tokens[1..]);
      var rest := Rendered(tokens[1..], "*", PLACEHOLDER);
      match tokens[0] {
        case Lit(c) => SkipText(Esc(c), rest, "*", "[^/]*");
        case Star => TakeOne(rest, "*", "[^/]*");
        case DoubleStar => SkipText(PLACEHOLDER, rest, "*", "[^/]*");
      }
    }
  }

  function Body(tokens: seq<Token>): string {
    Rendered(tokens, "[^/]*", ".*")
  }

  lemma {:induction false} ServicePasses(name: string, specials: string)
    requires specials == SPECIALS
    ensures ReplaceAll(Escaped(name, specials), "*", ".*") == Body(ServiceTokens(name))
  {
    if |name| == 0 {
      EscapedAbsent("", specials);
    } else {
      EscapedOneByOne(name, specials);
      ServicePasses(name[1..], specials);
      SpecialsAreDistinct();
      var rest := Escaped(name[1..], specials);
      if name[0] == '*' {
        TakeOne(rest, "*", ".*");
      } else {
        SkipText(Esc(name[0]), rest, "*", ".*");
      }
    }
  }

  lemma {:induction false} ServiceTokensAreLiterals(name: string, c: char)
    requires c !in name || c == '*'
    ensures LitsAvoid(ServiceTokens(name), c)
  {
    if |name| > 0 {
      ServiceTokensAreLiterals(name[1..], c);
    }
  }

  // ---- Parsing -------------------------------------------------------------------------------------------------

  /** Tokens the parser reads back: no star and no backslash among the literals. */
  predicate Readable(tokens: seq<Token>) {
    LitsAvoid(tokens, '*') && LitsAvoid(tokens, '\\')
  }

  /** The alternatives of the body followed by an expression with the given alternatives. */
  function Alternatives(tokens: seq<Token>, tail: seq<seq<Atom>>): (r: seq<seq<Atom>>)
    requires |tail| > 0
    ensures |r| > 0
  {
    if |tokens| == 0 then tail
    else
      var rest := Alternatives(tokens[1..], tail);
      if tokens[0] == Lit('|') then [[]] + rest else [[AtomOf(tokens[0])] + rest[0]] + rest[1..]
  }

  function AtomOf(t: Token): Atom {
    match t
    case Lit(c) => if c == '^' then LineStart else if c == '$' then LineEnd else Char(c)
    case Star => NotSlashes
    case DoubleStar => Anything
  }

  lemma {:induction false} ParseBody(tokens: seq<Token>, tail: string)
    requires Readable(tokens) && Parse(tail).Some? && |Parse(tail).value| > 0
    ensures Parse(Body(tokens) + tail) == Some(Alternatives(tokens, Parse(tail).value))
  {
    if |tokens| == 0 {
      assert "" + tail == tail;
    } else {
      ParseBody(tokens[1..], tail);
      var rest := Body(tokens[1..]) + tail;
      BodyStarts(tokens, tail);
      match tokens[0] {
        case Star => ParseStar(rest);
        case DoubleStar => ParseDoubleStar(rest);
        case Lit(c) => ParseLiteral(c, rest);
      }
    }
  }

  lemma BodyStarts(tokens: seq<Token>, tail: string)
    requires |tokens| > 0
    ensures Body(tokens) + tail == RenderedToken(tokens[0], "[^/]*", ".*") + (Body(tokens[1..]) + tail)
  {
  }

  lemma ParseStar(rest: string)
    ensures Parse("[^/]*" + rest) == Prefixed(NotSlashes, Parse(rest))
  {
    var s := "[^/]*" + rest;
    assert StartsWith(s, "[^/]*") && s[5..] == rest;
  }

  lemma ParseDoubleStar(rest: string)
    ensures Parse(".*" + rest) == Prefixed(Anything, Parse(rest))
  {
    var s := ".*" + rest;
    assert s[0] == '.' && !StartsWith(s, "[^/]*");
    assert StartsWith(s, ".*") && s[2..] == rest;
  }

  /** One rendered literal, in front of anything. */
  lemma ParseLiteral(c: char, rest: string)
    requires c != '*' && c != '\\' && Parse(rest).Some? && |Parse(rest).value| > 0
    ensures Parse(Esc(c) + rest) ==
            if c == '|' then Some([[]] + Parse(rest).value) else Prefixed(AtomOf(Lit(c)), Parse(rest))
  {
    var s := Esc(c) + rest;
    assert s[|Esc(c)|..] == rest;
    assert s[0] == if c in SPECIALS then '\\' else c;
    StartsWithFirst(s, "[^/]*");
    StartsWithFirst(s, ".*");
    if c !in SPECIALS && IsMeta(c) {
      NonSpecialMeta(c);
    }
  }

  lemma StartsWithFirst(s: string, prefix: string)
    requires |s| > 0 && |prefix| > 0
    ensures StartsWith(s, prefix) ==> s[0] == prefix[0]
  {
    assert StartsWith(s, prefix) ==> s[0] == s[..|prefix|][0];
  }

  lemma NonSpecialMeta(c: char)
    requires IsMeta(c) && c !in SPECIALS
    ensures c == '\\' || c == '*' || c == '|' || c == '^' || c == '$'
  {
  }

  // ---- Anchors -------------------------------------------------------------------------------------------------

  /** The anchors that are added: none where the pattern already has one. */
  function Head(tokens: seq<Token>): string {
    if |tokens| > 0 && tokens[0] == Lit('^') then "" else "^"
  }

  function Tail(tokens: seq<Token>): string {
    if |tokens| > 0 && tokens[|tokens| - 1] == Lit('$') then "" else "$"
  }

  function Compiled(tokens: seq<Token>): seq<seq<Atom>> {
    var body := Alternatives(tokens, [if Tail(tokens) == "" then [] else [LineEnd]]);
    if Head(tokens) == "" then body else [[LineStart] + body[0]] + body[1..]
  }

  lemma BodyFirst(tokens: seq<Token>)
    ensures |tokens| == 0 ==> Body(tokens) == ""
    ensures |tokens| > 0 ==> |Body(tokens)| > 0 && (Body(tokens)[0] == '^' <==> tokens[0] == Lit('^'))
  {
    if |tokens| > 0 && tokens[0].Lit? {
      assert Esc(tokens[0].c)[0] == if tokens[0].c in SPECIALS then '\\' else tokens[0].c;
    }
  }

  lemma {:induction false} BodyLast(tokens: seq<Token>)
    requires |tokens| > 0
    ensures |Body(tokens)| > 0
    ensures Body(tokens)[|Body(tokens)| - 1] == '$' <==> tokens[|tokens| - 1] == Lit('$')
  {
    if |tokens| > 1 {
      BodyLast(tokens[1..]);
      assert Body(tokens) == RenderedToken(tokens[0], "[^/]*", ".*") + Body(tokens[1..]);
    } else {
      assert tokens[1..] == [] && Body(tokens[1..]) == "";
      assert Body(tokens) == RenderedToken(tokens[0], "[^/]*", ".*");
      if tokens[0].Lit? {
        var e := Esc(tokens[0].c);
        assert e[|e| - 1] == tokens[0].c;
      }
    }
  }

  lemma AnchoredBody(tokens: seq<Token>)
    ensures Anchored(Body(tokens)) == Head(tokens) + (Body(tokens) + Tail(tokens))
  {
    BodyFirst(tokens);
    if |tokens| > 0 {
      BodyLast(tokens);
    }
    AnchorsOf(Body(tokens), Head(tokens), Tail(tokens));
  }

  lemma AnchorsOf(body: string, head: string, tail: string)
    requires head == if |body| > 0 && body[0] == '^' then "" else "^"
    requires tail == if |body| > 0 && body[|body| - 1] == '$' then "" else "$"
    ensures Anchored(body) == head + (body + tail)
  {
    var front := if StartsWith(body, "^") then body else "^" + body;
    assert |body| > 0 ==> body[..1] == [body[0]];
    assert front == head + body;
    assert (head + body) + tail == head + (body + tail);
  }

  lemma ParseTail(tail: string)
    requires tail == "" || tail == "$"
    ensures Parse(tail) == Some([if tail == "" then [] else [LineEnd]])
  {
    if tail == "$" {
      assert tail[1..] == "" && tail[0] == '$';
      StartsWithFirst(tail, "[^/]*");
      StartsWithFirst(tail, ".*");
      assert Parse(tail) == Prefixed(LineEnd, Parse(""));
      var alternatives: seq<seq<Atom>> := [[]];
      assert Parse("") == Some(alternatives) && alternatives[1..] == [];
      assert [LineEnd] + alternatives[0] == [LineEnd] && [[LineEnd]] + alternatives[1..] == [[LineEnd]];
    }
  }

  /** How the compiled string parses. */
  lemma ParseAnchored(tokens: seq<Token>)
    requires Readable(tokens)
    ensures Parse(Anchored(Body(tokens))) == Some(Compiled(tokens))
  {
    AnchoredBody(tokens);
    ParseTail(Tail(tokens));
    ParseBody(tokens, Tail(tokens));
    var rest := Body(tokens) + Tail(tokens);
    if Head(tokens) == "" {
      assert "" + rest == rest;
    } else {
      ParseHead(rest);
    }
  }

  lemma ParseHead(rest: string)
    ensures Parse("^" + rest) == Prefixed(LineStart, Parse(rest))
  {
    var s := "^" + rest;
    assert s[1..] == rest && s[0] == '^';
    StartsWithFirst(s, "[^/]*");
    StartsWithFirst(s, ".*");
  }

  // ---- Meaning of one alternative ------------------------------------------------------------------------------

  /** No literal among the tokens has a meaning of its own in the expression. */
  predicate PlainTokens(tokens: seq<Token>) {
    LitsAvoid(tokens, '|') && LitsAvoid(tokens, '^') && LitsAvoid(tokens, '$')
  }

  function Atoms(tokens: seq<Token>): seq<Atom> {
    if |tokens| == 0 then [LineEnd] else [AtomOf(tokens[0])] + Atoms(tokens[1..])
  }

  lemma {:induction false} PlainHasOneAlternative(tokens: seq<Token>)
    requires PlainTokens(tokens)
    ensures Alternatives(tokens, [[LineEnd]]) == [Atoms(tokens)]
  {
    if |tokens| > 0 {
      PlainHasOneAlternative(tokens[1..]);
    }
  }

  /** A wildcard may run from `i` to `j`, and the remaining atoms match from there. */
  predicate RunsTo(rest: seq<Atom>, key: string, i: nat, j: nat) {
    i <= j <= |key| && MatchesAt(rest, key, j)
  }

  predicate NoSlash(key: string, i: nat, j: nat) {
    i <= j <= |key| && forall x :: i <= x < j ==> key[x] != '/'
  }

  lemma {:induction false} StarRuns(atoms: seq<Atom>, key: string, i: nat)
    requires |atoms| > 0 && i <= |key| && atoms[0] == NotSlashes
    ensures MatchesAt(atoms, key, i) <==> exists j :: RunsTo(atoms[1..], key, i, j) && NoSlash(key, i, j)
    decreases |key| - i
  {
    if MatchesAt(atoms[1..], key, i) {
      assert RunsTo(atoms[1..], key, i, i) && NoSlash(key, i, i);
    }
    if i < |key| {
      StarRuns(atoms, key, i + 1);
      if MatchesAt(atoms, key, i + 1) && key[i] != '/' {
        var j :| RunsTo(atoms[1..], key, i + 1, j) && NoSlash(key, i + 1, j);
        assert RunsTo(atoms[1..], key, i, j) && NoSlash(key, i, j);
      }
      forall j | RunsTo(atoms[1..], key, i, j) && NoSlash(key, i, j) && i < j
        ensures key[i] != '/' && RunsTo(atoms[1..], key, i + 1, j) && NoSlash(key, i + 1, j)
      {
      }
    }
  }

  lemma {:induction false} DotRuns(atoms: seq<Atom>, key: string, i: nat)
    requires |atoms| > 0 && i <= |key| && atoms[0] == Anything && '\n' !in key
    ensures MatchesAt(atoms, key, i) <==> exists j :: RunsTo(atoms[1..], key, i, j)
    decreases |key| - i
  {
    if MatchesAt(atoms[1..], key, i) {
      assert RunsTo(atoms[1..], key, i, i);
    }
    if i < |key| {
      DotRuns(atoms, key, i + 1);
      assert key[i] != '\n';
      if MatchesAt(atoms, key, i + 1) {
        var j :| RunsTo(atoms[1..], key, i + 1, j);
        assert RunsTo(atoms[1..], key, i, j);
      }
      forall j | RunsTo(atoms[1..], key, i, j) && i < j ensures RunsTo(atoms[1..], key, i + 1, j) {
      }
    }
  }

  /** From any position on, the atoms match up to the end exactly when the tokens denote the rest of the key. */
  lemma {:induction false} AtomsMatchTokens(tokens: seq<Token>, key: string, i: nat)
    requires PlainTokens(tokens) && i <= |key| && '\n' !in key
    ensures MatchesAt(Atoms(tokens), key, i) <==> Denotes(tokens, key[i..])
    decreases |tokens|, 0
  {
    if |tokens| > 0 {
      var rest := tokens[1..];
      assert Atoms(tokens)[1..] == Atoms(rest);
      match tokens[0] {
        case Lit(c) =>
          if i < |key| {
            AtomsMatchTokens(rest, key, i + 1);
            assert key[i..][1..] == key[i + 1..];
          }
        case Star =>
          StarRuns(Atoms(tokens), key, i);
          SlashFreeRunsAreSplits(rest, key, i);
        case DoubleStar =>
          DotRuns(Atoms(tokens), key, i);
          RunsAreSplits(rest, key, i);
      }
    }
  }

  /** A run of the wildcard to `j` is a split of the rest of the key after `j - i` characters. */
  lemma {:induction false} RunIsSplit(rest: seq<Token>, key: string, i: nat, j: nat)
    requires PlainTokens(rest) && i <= j <= |key| && '\n' !in key
    ensures RunsTo(Atoms(rest), key, i, j) <==> Denotes(rest, key[i..][j - i..])
    ensures NoSlash(key, i, j) <==> '/' !in key[i..][..j - i]
    decreases |rest|, 1
  {
    AtomsMatchTokens(rest, key, j);
    var text := key[i..];
    assert text[j - i..] == key[j..];
    assert forall x :: i <= x < j ==> key[x] == text[..j - i][x - i];
  }

  lemma {:induction false} RunsAreSplits(rest: seq<Token>, key: string, i: nat)
    requires PlainTokens(rest) && i <= |key| && '\n' !in key
    ensures (exists j :: RunsTo(Atoms(rest), key, i, j)) <==>
            exists n :: 0 <= n <= |key[i..]| && Denotes(rest, key[i..][n..])
    decreases |rest|, 2
  {
    if n :| 0 <= n <= |key[i..]| && Denotes(rest, key[i..][n..]) {
      RunIsSplit(rest, key, i, i + n);
      assert i + n - i == n && RunsTo(Atoms(rest), key, i, i + n);
    }
    if j: nat :| RunsTo(Atoms(rest), key, i, j) {
      RunIsSplit(rest, key, i, j);
      assert Denotes(rest, key[i..][j - i..]);
    }
  }

  lemma {:induction false} SlashFreeRunsAreSplits(rest: seq<Token>, key: string, i: nat)
    requires PlainTokens(rest) && i <= |key| && '\n' !in key
    ensures (exists j :: RunsTo(Atoms(rest), key, i, j) && NoSlash(key, i, j)) <==>
            exists n :: 0 <= n <= |key[i..]| && '/' !in key[i..][..n] && Denotes(rest, key[i..][n..])
    decreases |rest|, 2
  {
    if n :| 0 <= n <= |key[i..]| && '/' !in key[i..][..n] && Denotes(rest, key[i..][n..]) {
      RunIsSplit(rest, key, i, i + n);
      assert i + n - i == n && RunsTo(Atoms(rest), key, i, i + n) && NoSlash(key, i, i + n);
    }
    if j: nat :| RunsTo(Atoms(rest), key, i, j) && NoSlash(key, i, j) {
      RunIsSplit(rest, key, i, j);
      assert '/' !in key[i..][..j - i] && Denotes(rest, key[i..][j - i..]);
    }
  }

  /** The expression compiled from some tokens accepts exactly what others denote, on keys without a line break. */
  ghost predicate Means(compiled: seq<Token>, tokens: seq<Token>) {
    forall key :: '\n' !in key ==> (MatchString(Compiled(compiled), key) <==> Denotes(tokens, key))
  }

  lemma PlainTokensKeepMeaning(tokens: seq<Token>)
    requires PlainTokens(tokens)
    ensures Means(tokens, tokens)
  {
    PlainHasOneAlternative(tokens);
    assert Head(tokens) == "^" && Tail(tokens) == "$";
    var atoms := [LineStart] + Atoms(tokens);
    assert Compiled(tokens) == [atoms];
    forall key | '\n' !in key ensures MatchString([atoms], key) <==> Denotes(tokens, key) {
      AtomsMatchTokens(tokens, key, 0);
      assert atoms[1..] == Atoms(tokens) && key[0..] == key;
      assert forall i :: 0 < i <= |key| ==> !MatchesAt(atoms, key, i);
      assert MatchesAt(atoms, key, 0) <==> Denotes(tokens, key);
      if MatchesAt(atoms, key, 0) {
        assert MatchesAt([atoms][0], key, 0);
      }
    }
  }

  // ---- Where the meaning is lost -------------------------------------------------------------------------------

  /** The key without the character `c`. */
  function Drop(key: string, c: char): string {
    if |key| == 0 then "" else Drop(key[..|key| - 1], c) + (if key[|key| - 1] == c then "" else [key[|key| - 1]])
  }

  lemma {:induction false} DropContents(key: string, c: char)
    ensures forall x :: x in Drop(key, c) <==> x in key && x != c
  {
    if |key| > 0 {
      DropContents(key[..|key| - 1], c);
      assert key == key[..|key| - 1] + [key[|key| - 1]];
    }
  }

  lemma {:induction false} DropPrefix(key: string, c: char, i: nat)
    requires i <= |key|
    ensures |Drop(key[..i], c)| <= |Drop(key, c)| && Drop(key[..i], c) == Drop(key, c)[..|Drop(key[..i], c)|]
    decreases |key| - i
  {
    if i == |key| {
      assert key[..i] == key;
    } else {
      DropPrefix2(key, c, i);
    }
  }

  lemma {:induction false} DropPrefix2(key: string, c: char, i: nat)
    requires i < |key|
    ensures |Drop(key[..i], c)| <= |Drop(key, c)| && Drop(key[..i], c) == Drop(key, c)[..|Drop(key[..i], c)|]
    decreases |key|
  {
    var before := key[..|key| - 1];
    if i == |key| - 1 {
      assert key[..i] == before;
    } else {
      assert before[..i] == key[..i];
      DropPrefix2(before, c, i);
    }
  }

  function Place(key: string, c: char, i: nat): nat
    requires i <= |key|
  {
    |Drop(key[..i], c)|
  }

  lemma PlaceNext(key: string, c: char, i: nat)
    requires i < |key|
    ensures Place(key, c, i) <= Place(key, c, i + 1) <= |Drop(key, c)|
    ensures key[i] == c ==> Place(key, c, i + 1) == Place(key, c, i)
    ensures key[i] != c ==> Place(key, c, i + 1) == Place(key, c, i) + 1 && Drop(key, c)[Place(key, c, i)] == key[i]
  {
    assert key[..i + 1][..i] == key[..i];
    DropPrefix(key, c, i + 1);
  }

  /** Without a literal `c` among the atoms, a match survives when every `c` is taken out of the key. */
  lemma {:induction false} MatchSurvivesDrop(atoms: seq<Atom>, key: string, c: char, i: nat)
    requires i <= |key| && Char(c) !in atoms && MatchesAt(atoms, key, i)
    ensures Place(key, c, i) <= |Drop(key, c)|
    ensures MatchesAt(atoms, Drop(key, c), Place(key, c, i))
    decreases |atoms|, |key| - i
  {
    DropPrefix(key, c, i);
    if |atoms| > 0 {
      assert atoms == [atoms[0]] + atoms[1..];
      if i < |key| {
        PlaceNext(key, c, i);
      }
      match atoms[0] {
        case Char(d) => MatchSurvivesDrop(atoms[1..], key, c, i + 1);
        case NotSlashes =>
          if MatchesAt(atoms[1..], key, i) {
            MatchSurvivesDrop(atoms[1..], key, c, i);
          } else {
            MatchSurvivesDrop(atoms, key, c, i + 1);
          }
        case Anything =>
          if MatchesAt(atoms[1..], key, i) {
            MatchSurvivesDrop(atoms[1..], key, c, i);
          } else {
            MatchSurvivesDrop(atoms, key, c, i + 1);
          }
        case LineStart =>
          MatchSurvivesDrop(atoms[1..], key, c, i);
          assert key[..0] == "";
        case LineEnd =>
          MatchSurvivesDrop(atoms[1..], key, c, i);
          assert key[..|key|] == key;
      }
    }
  }

  lemma {:induction false} NoSuchAtom(tokens: seq<Token>, tail: seq<seq<Atom>>, c: char)
    requires c == '|' || c == '^' || c == '$'
    requires |tail| > 0 && forall a :: 0 <= a < |tail| ==> Char(c) !in tail[a]
    ensures forall a :: 0 <= a < |Alternatives(tokens, tail)| ==> Char(c) !in Alternatives(tokens, tail)[a]
  {
    if |tokens| > 0 {
      NoSuchAtom(tokens[1..], tail, c);
    }
  }

  lemma AcceptanceSurvivesDrop(tokens: seq<Token>, key: string, c: char)
    requires c == '|' || c == '^' || c == '$'
    requires MatchString(Compiled(tokens), key)
    ensures MatchString(Compiled(tokens), Drop(key, c))
  {
    NoSuchAtom(tokens, [if Tail(tokens) == "" then [] else [LineEnd]], c);
    var a, i :| 0 <= a < |Compiled(tokens)| && 0 <= i <= |key| && MatchesAt(Compiled(tokens)[a], key, i);
    assert Char(c) !in Compiled(tokens)[a];
    MatchSurvivesDrop(Compiled(tokens)[a], key, c, i);
  }

  /** The key that spells the literals and leaves every wildcard empty. */
  function Spelled(tokens: seq<Token>): string {
    if |tokens| == 0 then "" else (if tokens[0].Lit? then [tokens[0].c] else "") + Spelled(tokens[1..])
  }

  lemma {:induction false} SpelledIsDenoted(tokens: seq<Token>)
    ensures Denotes(tokens, Spelled(tokens))
    ensures forall x :: x in Spelled(tokens) ==> Lit(x) in tokens
  {
    if |tokens| > 0 {
      SpelledIsDenoted(tokens[1..]);
      var key := Spelled(tokens);
      match tokens[0] {
        case Lit(c) => assert key[1..] == Spelled(tokens[1..]);
        case Star => assert key == Spelled(tokens[1..]) && key[0..] == key && key[..0] == "";
        case DoubleStar => assert key == Spelled(tokens[1..]) && key[0..] == key;
      }
    }
  }

  lemma {:induction false} DenotedKeysContainLiterals(tokens: seq<Token>, key: string, c: char)
    requires Denotes(tokens, key) && Lit(c) in tokens
    ensures c in key
    decreases |tokens|
  {
    assert tokens == [tokens[0]] + tokens[1..];
    match tokens[0] {
      case Lit(d) =>
        if d != c {
          DenotedKeysContainLiterals(tokens[1..], key[1..], c);
        }
      case Star =>
        var n :| 0 <= n <= |key| && '/' !in key[..n] && Denotes(tokens[1..], key[n..]);
        DenotedKeysContainLiterals(tokens[1..], key[n..], c);
      case DoubleStar =>
        var n :| 0 <= n <= |key| && Denotes(tokens[1..], key[n..]);
        DenotedKeysContainLiterals(tokens[1..], key[n..], c);
    }
  }

  /** A literal that the expression reads as an operator loses the meaning, whatever was compiled. */
  lemma OperatorLosesMeaning(compiled: seq<Token>, tokens: seq<Token>, c: char)
    requires c == '|' || c == '^' || c == '$'
    requires Lit(c) in tokens && Lit('\n') !in tokens
    ensures !Means(compiled, tokens)
  {
    var key := Spelled(tokens);
    SpelledIsDenoted(tokens);
    DropContents(key, c);
    if MatchString(Compiled(compiled), key) {
      AcceptanceSurvivesDrop(compiled, key, c);
      if Denotes(tokens, Drop(key, c)) {
        DenotedKeysContainLiterals(tokens, Drop(key, c), c);
      }
      assert MatchString(Compiled(compiled), Drop(key, c)) && !Denotes(tokens, Drop(key, c));
    }
  }

  lemma SomeOperatorLosesMeaning(compiled: seq<Token>, tokens: seq<Token>)
    requires Lit('\n') !in tokens && !PlainTokens(tokens)
    ensures !Means(compiled, tokens)
  {
    var c := if !LitsAvoid(tokens, '|') then '|' else if !LitsAvoid(tokens, '^') then '^' else '$';
    var i :| 0 <= i < |tokens| && tokens[i] == Lit(c);
    OperatorLosesMeaning(compiled, tokens, c);
  }

  lemma MeaningIff(tokens: seq<Token>)
    requires Lit('\n') !in tokens
    ensures Means(tokens, tokens) <==> PlainTokens(tokens)
  {
    if PlainTokens(tokens) {
      PlainTokensKeepMeaning(tokens);
    } else {
      SomeOperatorLosesMeaning(tokens, tokens);
    }
  }
}
