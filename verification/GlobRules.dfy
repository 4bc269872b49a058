/**
 The two rules: what the placeholder pass takes a path for, and exactly which patterns keep their glob meaning through
 compilation.
 */
module GlobRules {
  import opened Prelude
  import opened Glob
  import opened GlobMeaning

  // ---- The placeholder pass ------------------------------------------------------------------------------------

  /** The placeholder with its last sign replaced by two stars. */
  const STARRED: string := [MARK] + "DOUBLESTAR" + "**"

  function Lits(w: string): seq<Token> {
    if |w| == 0 then [] else [Lit(w[0])] + Lits(w[1..])
  }

  /** The tokens begin with the literals of `w` and then with a token whose text begins with a section sign. */
  predicate Continues(tokens: seq<Token>, w: string)
    ensures Continues(tokens, w) ==> |tokens| > |w|
    decreases |w|
  {
    |tokens| > 0
    && if |w| == 0 then tokens[0] == Lit(MARK) || tokens[0] == DoubleStar
       else tokens[0] == Lit(w[0]) && Continues(tokens[1..], w[1..])
  }

  /** What the last pass takes the tokens for: a literal section sign may be read as the first one of a placeholder. */
  function Taken(tokens: seq<Token>, w: string): seq<Token>
    decreases |tokens|, 0
  {
    if |tokens| == 0 then []
    else if tokens[0] == Lit(MARK) then TakenAfterMark(tokens[1..], w)
    else [tokens[0]] + Taken(tokens[1..], w)
  }

  /** The same behind a section sign. It may use up the first sign of a true placeholder, whose last sign is then
      left. */
  function TakenAfterMark(tokens: seq<Token>, w: string): seq<Token>
    decreases |tokens|, 1
  {
    if !Continues(tokens, w) then [Lit(MARK)] + Taken(tokens, w)
    else if tokens[|w|] == Lit(MARK) then [DoubleStar] + Taken(tokens[|w| + 1..], w)
    else [DoubleStar] + Lits(w) + TakenAfterMark(tokens[|w| + 1..], w)
  }

  function Placeholder(w: string): string {
    [MARK] + w + [MARK]
  }

  /** Text as the pass meets it: stars already rendered, double stars still placeholders. */
  function Marked(tokens: seq<Token>, p: string): string {
    Rendered(tokens, "[^/]*", p)
  }

  predicate IsWord(w: string) {
    forall i :: 0 <= i < |w| ==> 'A' <= w[i] <= 'Z'
  }

  lemma LetterIsPlain(c: char)
    requires 'A' <= c <= 'Z'
    ensures c !in SPECIALS && c != MARK && c != '\\' && c != '['
  {
  }

  lemma {:induction false} BeginsLike(tokens: seq<Token>, w: string, p: string)
    requires |p| > 0 && p[0] == MARK && IsWord(w)
    ensures StartsWith(Marked(tokens, p), w + [MARK]) <==> Continues(tokens, w)
    decreases |w|
  {
    var text := Marked(tokens, p);
    SpecialsAreDistinct();
    if |w| == 0 {
      assert w + [MARK] == [MARK];
      assert |text| > 0 ==> text[..1] == [text[0]];
    } else {
      LetterIsPlain(w[0]);
      if |tokens| > 0 && tokens[0] == Lit(w[0]) {
        assert text == [w[0]] + Marked(tokens[1..], p);
        BeginsLike(tokens[1..], w[1..], p);
        StartsWithCons(w[0], Marked(tokens[1..], p), w[0], w[1..] + [MARK]);
        assert [w[0]] + (w[1..] + [MARK]) == w + [MARK];
      } else if |tokens| > 0 {
        assert text[0] != w[0];
        StartsWithFirst(text, w + [MARK]);
      }
    }
  }

  lemma StartsWithCons(x: char, s: string, y: char, prefix: string)
    ensures StartsWith([x] + s, [y] + prefix) <==> x == y && StartsWith(s, prefix)
  {
    if |prefix| <= |s| {
      assert ([x] + s)[..1 + |prefix|] == [x] + s[..|prefix|];
      assert ([x] + s)[..1 + |prefix|][0] == x && ([y] + prefix)[0] == y;
      if [x] + s[..|prefix|] == [y] + prefix {
        assert ([x] + s[..|prefix|])[1..] == s[..|prefix|] && ([y] + prefix)[1..] == prefix;
      }
    }
  }

  lemma {:induction false} WordIsRendered(tokens: seq<Token>, w: string, p: string)
    requires |p| > 0 && p[0] == MARK && IsWord(w) && Continues(tokens, w)
    ensures Marked(tokens, p) == w + Marked(tokens[|w|..], p)
    ensures Spelled(tokens) == w + Spelled(tokens[|w|..])
    ensures tokens[|w|] == Lit(MARK) || tokens[|w|] == DoubleStar
    decreases |w|
  {
    if |w| == 0 {
      assert tokens[0..] == tokens;
    } else {
      LetterIsPlain(w[0]);
      WordIsRendered(tokens[1..], w[1..], p);
      assert tokens[1..][|w| - 1..] == tokens[|w|..];
      LetterFirst(tokens, w[0], p);
      LetterJoins(w, Marked(tokens[|w|..], p));
      LetterJoins(w, Spelled(tokens[|w|..]));
    }
  }

  lemma LetterFirst(tokens: seq<Token>, c: char, p: string)
    requires |tokens| > 0 && tokens[0] == Lit(c) && Esc(c) == [c]
    ensures Marked(tokens, p) == [c] + Marked(tokens[1..], p)
    ensures Spelled(tokens) == [c] + Spelled(tokens[1..])
  {
  }

  lemma LetterJoins(w: string, text: string)
    requires |w| > 0
    ensures [w[0]] + (w[1..] + text) == w + text
  {
  }

  lemma {:induction false} RenderedConcat(a: seq<Token>, b: seq<Token>, star: string, doubleStar: string)
    ensures Rendered(a + b, star, doubleStar) == Rendered(a, star, doubleStar) + Rendered(b, star, doubleStar)
  {
    if |a| == 0 {
      assert a + b == b;
    } else {
      RenderedConcat(a[1..], b, star, doubleStar);
      assert (a + b)[1..] == a[1..] + b && (a + b)[0] == a[0];
      var head := RenderedToken(a[0], star, doubleStar);
      var x, y := Rendered(a[1..], star, doubleStar), Rendered(b, star, doubleStar);
      assert head + (x + y) == (head + x) + y;
    }
  }

  lemma {:induction false} SpelledConcat(a: seq<Token>, b: seq<Token>)
    ensures Spelled(a + b) == Spelled(a) + Spelled(b)
  {
    if |a| == 0 {
      assert a + b == b;
    } else {
      SpelledConcat(a[1..], b);
      assert (a + b)[1..] == a[1..] + b && (a + b)[0] == a[0];
      var head := if a[0].Lit? then [a[0].c] else "";
      assert head + (Spelled(a[1..]) + Spelled(b)) == (head + Spelled(a[1..])) + Spelled(b);
    }
  }

  lemma LitsAvoidConcat(a: seq<Token>, b: seq<Token>, c: char)
    requires LitsAvoid(a, c) && LitsAvoid(b, c)
    ensures LitsAvoid(a + b, c)
  {
  }

  lemma {:induction false} WordIsItsText(w: string)
    requires IsWord(w)
    ensures Body(Lits(w)) == w && Spelled(Lits(w)) == w
  {
    if |w| > 0 {
      LetterIsPlain(w[0]);
      WordIsItsText(w[1..]);
      assert Lits(w)[1..] == Lits(w[1..]);
    }
  }

  lemma TakenWord(w: string, rest: seq<Token>)
    requires IsWord(w)
    ensures Body([DoubleStar] + Lits(w) + rest) == ".*" + (w + Body(rest))
    ensures Spelled([DoubleStar] + Lits(w) + rest) == w + Spelled(rest)
  {
    var tail := Lits(w) + rest;
    WordIsItsText(w);
    RenderedConcat(Lits(w), rest, "[^/]*", ".*");
    SpelledConcat(Lits(w), rest);
    DoubleStarFirst(tail);
    assert [DoubleStar] + Lits(w) + rest == [DoubleStar] + tail;
  }

  lemma DoubleStarFirst(tail: seq<Token>)
    ensures Body([DoubleStar] + tail) == ".*" + Body(tail)
    ensures Spelled([DoubleStar] + tail) == Spelled(tail)
  {
    assert ([DoubleStar] + tail)[1..] == tail;
  }

  lemma {:induction false} ThirdPass(tokens: seq<Token>, w: string, p: string)
    requires IsWord(w) && p == Placeholder(w)
    ensures ReplaceAll(Marked(tokens, p), p, ".*") == Body(Taken(tokens, w))
    decreases |tokens|, 0
  {
    if |tokens| > 0 {
      var rest := Marked(tokens[1..], p);
      SpecialsAreDistinct();
      if tokens[0] == Lit(MARK) {
        ThirdPassAfterMark(tokens[1..], w, p);
      } else {
        ThirdPass(tokens[1..], w, p);
        assert ([tokens[0]] + Taken(tokens[1..], w))[1..] == Taken(tokens[1..], w);
        match tokens[0] {
          case Lit(c) => SkipText(Esc(c), rest, p, ".*");
          case Star => SkipText("[^/]*", rest, p, ".*");
          case DoubleStar => TakeOne(rest, p, ".*");
        }
      }
    }
  }

  lemma {:induction false} ThirdPassAfterMark(tokens: seq<Token>, w: string, p: string)
    requires IsWord(w) && p == Placeholder(w)
    ensures ReplaceAll([MARK] + Marked(tokens, p), p, ".*") == Body(TakenAfterMark(tokens, w))
    decreases |tokens|, 1
  {
    BeginsLike(tokens, w, p);
    StartsWithCons(MARK, Marked(tokens, p), MARK, w + [MARK]);
    assert p == [MARK] + (w + [MARK]);
    if !Continues(tokens, w) {
      SkipOne(MARK, Marked(tokens, p), p, ".*");
      ThirdPass(tokens, w, p);
      SpecialsAreDistinct();
      assert ([Lit(MARK)] + Taken(tokens, w))[1..] == Taken(tokens, w);
    } else {
      var rest := tokens[|w| + 1..];
      WordIsRendered(tokens, w, p);
      assert tokens[|w|..][1..] == rest;
      if tokens[|w|] == Lit(MARK) {
        LiteralCloses(tokens, rest, w, p);
        ThirdPass(rest, w, p);
        assert ([DoubleStar] + Taken(rest, w))[1..] == Taken(rest, w);
      } else {
        PlaceholderCloses(tokens, rest, w, p);
        ThirdPassAfterMark(rest, w, p);
        TakenWord(w, TakenAfterMark(rest, w));
      }
    }
  }

  lemma LiteralCloses(tokens: seq<Token>, rest: seq<Token>, w: string, p: string)
    requires IsWord(w) && p == Placeholder(w)
    requires |tokens| > |w| && tokens[|w|] == Lit(MARK) && tokens[|w|..][1..] == rest
    requires Marked(tokens, p) == w + Marked(tokens[|w|..], p)
    ensures ReplaceAll([MARK] + Marked(tokens, p), p, ".*") == ".*" + ReplaceAll(Marked(rest, p), p, ".*")
  {
    SpecialsAreDistinct();
    assert Marked(tokens[|w|..], p) == [MARK] + Marked(rest, p);
    ClosedText(Marked(rest, p), w, p);
    TakeOne(Marked(rest, p), p, ".*");
  }

  lemma ClosedText(text: string, w: string, p: string)
    requires p == Placeholder(w)
    ensures [MARK] + (w + ([MARK] + text)) == p + text
  {
  }

  lemma PlaceholderCloses(tokens: seq<Token>, rest: seq<Token>, w: string, p: string)
    requires IsWord(w) && p == Placeholder(w)
    requires |tokens| > |w| && tokens[|w|] == DoubleStar && tokens[|w|..][1..] == rest
    requires Marked(tokens, p) == w + Marked(tokens[|w|..], p)
    ensures ReplaceAll([MARK] + Marked(tokens, p), p, ".*") ==
            ".*" + (w + ReplaceAll([MARK] + Marked(rest, p), p, ".*"))
  {
    var left := [MARK] + Marked(rest, p);
    assert Marked(tokens[|w|..], p) == p + Marked(rest, p);
    assert [MARK] + (w + (p + Marked(rest, p))) == p + (w + left);
    TakeOne(w + left, p, ".*");
    SkipText(w, left, p, ".*");
  }

  /** The word between the signs, known by its two spellings only. */
  lemma TheWord() returns (w: string)
    ensures IsWord(w) && |w| > 0 && Placeholder(w) == PLACEHOLDER && [MARK] + w + "**" == STARRED
  {
    w := "DOUBLESTAR";
  }

  /** The chain of passes writes, token by token, what the placeholder pass takes the path for: for every path. */
  lemma KvPasses(path: string, w: string)
    requires IsWord(w) && Placeholder(w) == PLACEHOLDER
    ensures CompileKV(path) == Anchored(Body(Taken(Tokens(path), w)))
  {
    TokensAreLiterals(path, '*');
    FirstPass(path, SPECIALS, PLACEHOLDER);
    SecondPass(Tokens(path));
    ThirdPass(Tokens(path), w, PLACEHOLDER);
  }

  // ---- When the tokens are taken for what they are -------------------------------------------------------------

  /** Some literal section sign begins what reads like a placeholder. */
  predicate Mistakable(tokens: seq<Token>, w: string) {
    |tokens| > 0 && ((tokens[0] == Lit(MARK) && Continues(tokens[1..], w)) || Mistakable(tokens[1..], w))
  }

  lemma {:induction false} TakenAsTheyAre(tokens: seq<Token>, w: string)
    requires !Mistakable(tokens, w)
    ensures Taken(tokens, w) == tokens
  {
    if |tokens| > 0 {
      TakenAsTheyAre(tokens[1..], w);
      assert tokens == [tokens[0]] + tokens[1..];
    }
  }

  lemma {:induction false} TakenAvoids(tokens: seq<Token>, w: string, c: char)
    requires IsWord(w) && LitsAvoid(tokens, c) && c != MARK && !('A' <= c <= 'Z')
    ensures LitsAvoid(Taken(tokens, w), c)
    decreases |tokens|, 0
  {
    if |tokens| > 0 {
      if tokens[0] == Lit(MARK) {
        TakenAfterMarkAvoids(tokens[1..], w, c);
      } else {
        TakenAvoids(tokens[1..], w, c);
      }
    }
  }

  lemma {:induction false} TakenAfterMarkAvoids(tokens: seq<Token>, w: string, c: char)
    requires IsWord(w) && LitsAvoid(tokens, c) && c != MARK && !('A' <= c <= 'Z')
    ensures LitsAvoid(TakenAfterMark(tokens, w), c)
    decreases |tokens|, 1
  {
    if !Continues(tokens, w) {
      TakenAvoids(tokens, w, c);
    } else if tokens[|w|] == Lit(MARK) {
      TakenAvoids(tokens[|w| + 1..], w, c);
    } else {
      var rest := TakenAfterMark(tokens[|w| + 1..], w);
      TakenAfterMarkAvoids(tokens[|w| + 1..], w, c);
      WordThenAvoids(w, rest, c);
    }
  }

  lemma WordThenAvoids(w: string, rest: seq<Token>, c: char)
    requires IsWord(w) && !('A' <= c <= 'Z') && LitsAvoid(rest, c)
    ensures LitsAvoid([DoubleStar] + Lits(w) + rest, c)
  {
    WordAvoids(w, c);
    LitsAvoidConcat([DoubleStar], Lits(w), c);
    LitsAvoidConcat([DoubleStar] + Lits(w), rest, c);
  }

  lemma {:induction false} WordAvoids(w: string, c: char)
    requires IsWord(w) && !('A' <= c <= 'Z')
    ensures LitsAvoid(Lits(w), c)
  {
    if |w| > 0 {
      WordAvoids(w[1..], c);
    }
  }

  // ---- When they are not: the shortest accepted key ------------------------------------------------------------

  lemma {:induction false} TakenIsNotLonger(tokens: seq<Token>, w: string)
    requires IsWord(w)
    ensures |Spelled(Taken(tokens, w))| <= |Spelled(tokens)|
    decreases |tokens|, 0
  {
    if |tokens| > 0 {
      if tokens[0] == Lit(MARK) {
        TakenAfterMarkIsNotLonger(tokens[1..], w);
      } else {
        TakenIsNotLonger(tokens[1..], w);
        assert ([tokens[0]] + Taken(tokens[1..], w))[1..] == Taken(tokens[1..], w);
      }
    }
  }

  lemma {:induction false} TakenAfterMarkIsNotLonger(tokens: seq<Token>, w: string)
    requires IsWord(w)
    ensures |Spelled(TakenAfterMark(tokens, w))| <= 1 + |Spelled(tokens)|
    ensures Continues(tokens, w) && tokens[|w|] == Lit(MARK) ==>
              |Spelled(TakenAfterMark(tokens, w))| < |Spelled(tokens)|
    decreases |tokens|, 1
  {
    if !Continues(tokens, w) {
      TakenIsNotLonger(tokens, w);
      assert ([Lit(MARK)] + Taken(tokens, w))[1..] == Taken(tokens, w);
    } else {
      var rest := tokens[|w| + 1..];
      WordIsRendered(tokens, w, Placeholder(w));
      assert tokens[|w|..][1..] == rest;
      if tokens[|w|] == Lit(MARK) {
        TakenIsNotLonger(rest, w);
        assert ([DoubleStar] + Taken(rest, w))[1..] == Taken(rest, w);
      } else {
        TakenAfterMarkIsNotLonger(rest, w);
        TakenWord(w, TakenAfterMark(rest, w));
      }
    }
  }

  lemma {:induction false} TakenSpellsOtherwise(tokens: seq<Token>, w: string)
    requires IsWord(w) && |w| > 0 && Mistakable(tokens, w)
    ensures Spelled(Taken(tokens, w)) != Spelled(tokens)
  {
    var rest := tokens[1..];
    if tokens[0] == Lit(MARK) && Continues(rest, w) {
      MistakenSpelling(rest, w);
    } else {
      TakenSpellsOtherwise(rest, w);
      assert Taken(tokens, w) == [tokens[0]] + Taken(rest, w);
      assert ([tokens[0]] + Taken(rest, w))[1..] == Taken(rest, w);
      SpelledCons(tokens[0], Taken(rest, w), rest);
    }
  }

  lemma MistakenSpelling(rest: seq<Token>, w: string)
    requires IsWord(w) && |w| > 0 && Continues(rest, w)
    ensures Spelled(TakenAfterMark(rest, w)) != [MARK] + Spelled(rest)
  {
    WordIsRendered(rest, w, Placeholder(w));
    if rest[|w|] == Lit(MARK) {
      TakenAfterMarkIsNotLonger(rest, w);
    } else {
      var left := TakenAfterMark(rest[|w| + 1..], w);
      TakenWord(w, left);
      assert (w + Spelled(left))[0] == w[0] != MARK by { LetterIsPlain(w[0]); }
    }
  }

  lemma SpelledCons(t: Token, a: seq<Token>, b: seq<Token>)
    requires Spelled(a) != Spelled(b)
    ensures Spelled([t] + a) != Spelled([t] + b)
  {
    assert ([t] + a)[1..] == a && ([t] + b)[1..] == b;
    if t.Lit? {
      assert ([t.c] + Spelled(a))[1..] == Spelled(a) && ([t.c] + Spelled(b))[1..] == Spelled(b);
    }
  }

  /** The spelling is the only shortest key a token sequence denotes. */
  lemma {:induction false} ShortestKey(tokens: seq<Token>, key: string)
    requires Denotes(tokens, key)
    ensures |key| > |Spelled(tokens)| || key == Spelled(tokens)
    decreases |tokens|
  {
    if |tokens| > 0 {
      match tokens[0] {
        case Lit(c) =>
          ShortestKey(tokens[1..], key[1..]);
          assert key == [key[0]] + key[1..];
        case Star =>
          var n :| 0 <= n <= |key| && '/' !in key[..n] && Denotes(tokens[1..], key[n..]);
          ShortestKey(tokens[1..], key[n..]);
          assert n == 0 ==> key[n..] == key;
        case DoubleStar =>
          var n :| 0 <= n <= |key| && Denotes(tokens[1..], key[n..]);
          ShortestKey(tokens[1..], key[n..]);
          assert n == 0 ==> key[n..] == key;
      }
    }
  }

  /** The key that spells what the tokens are taken for is accepted, and the tokens do not denote it. */
  lemma MistakenKey(tokens: seq<Token>, w: string) returns (key: string)
    requires IsWord(w) && |w| > 0 && PlainTokens(tokens) && Mistakable(tokens, w) && Lit('\n') !in tokens
    ensures '\n' !in key && MatchString(Compiled(Taken(tokens, w)), key) && !Denotes(tokens, key)
  {
    key := Spelled(Taken(tokens, w));
    SpelledIsDenoted(Taken(tokens, w));
    TakenAvoids(tokens, w, '\n');
    PlainTaken(tokens, w);
    PlainTokensKeepMeaning(Taken(tokens, w));
    TakenIsNotLonger(tokens, w);
    TakenSpellsOtherwise(tokens, w);
    if Denotes(tokens, key) {
      ShortestKey(tokens, key);
    }
  }

  lemma PlainTaken(tokens: seq<Token>, w: string)
    requires IsWord(w) && PlainTokens(tokens)
    ensures PlainTokens(Taken(tokens, w))
  {
    TakenAvoids(tokens, w, '|');
    TakenAvoids(tokens, w, '^');
    TakenAvoids(tokens, w, '$');
  }

  lemma TakenMeaningIff(tokens: seq<Token>, w: string)
    requires IsWord(w) && |w| > 0 && Lit('\n') !in tokens
    ensures Means(Taken(tokens, w), tokens) <==> PlainTokens(tokens) && !Mistakable(tokens, w)
  {
    if !PlainTokens(tokens) {
      SomeOperatorLosesMeaning(Taken(tokens, w), tokens);
    } else if Mistakable(tokens, w) {
      var key := MistakenKey(tokens, w);
    } else {
      TakenAsTheyAre(tokens, w);
      PlainTokensKeepMeaning(tokens);
    }
  }

  // ---- From tokens to patterns ---------------------------------------------------------------------------------

  /** The compiled string is an expression, and on keys without a line break it accepts exactly the glob's keys. */
  ghost predicate CompilesTo(compiled: string, tokens: seq<Token>) {
    && Parse(compiled).Some?
    && forall key :: '\n' !in key ==> (MatchString(Parse(compiled).value, key) <==> Denotes(tokens, key))
  }

  lemma LitsAvoidCons(t: Token, rest: seq<Token>, c: char)
    ensures LitsAvoid([t] + rest, c) <==> t != Lit(c) && LitsAvoid(rest, c)
  {
    var tokens := [t] + rest;
    assert tokens[0] == t;
    forall i | 0 <= i < |rest| ensures tokens[i + 1] == rest[i] {}
    if LitsAvoid(tokens, c) {
      forall i | 0 <= i < |rest| ensures rest[i] != Lit(c) {
        assert tokens[i + 1] != Lit(c);
      }
    }
  }

  lemma {:induction false} LitsInPath(path: string, c: char)
    requires c != '*'
    ensures LitsAvoid(Tokens(path), c) <==> c !in path
    decreases |path|
  {
    if |path| > 0 {
      if StartsWith(path, "**") {
        LitsInPath(path[2..], c);
        assert path == ['*', '*'] + path[2..] by {
          assert path[0] == path[..2][0] && path[1] == path[..2][1];
        }
        assert Tokens(path) == [DoubleStar] + Tokens(path[2..]);
        LitsAvoidCons(DoubleStar, Tokens(path[2..]), c);
      } else {
        LitsInPath(path[1..], c);
        assert path == [path[0]] + path[1..];
        var t := if path[0] == '*' then Star else Lit(path[0]);
        assert Tokens(path) == [t] + Tokens(path[1..]);
        LitsAvoidCons(t, Tokens(path[1..]), c);
      }
    }
  }

  lemma {:induction false} LitsInName(name: string, c: char)
    requires c != '*'
    ensures LitsAvoid(ServiceTokens(name), c) <==> c !in name
  {
    if |name| > 0 {
      LitsInName(name[1..], c);
      assert name == [name[0]] + name[1..];
      var t := if name[0] == '*' then DoubleStar else Lit(name[0]);
      assert ServiceTokens(name) == [t] + ServiceTokens(name[1..]);
      LitsAvoidCons(t, ServiceTokens(name[1..]), c);
    }
  }

  predicate HasOperator(text: string) {
    '|' in text || '^' in text || '$' in text
  }

  /** The path contains the placeholder, or the placeholder with its last sign replaced by two stars. */
  predicate MentionsPlaceholder(path: string) {
    Contains(path, PLACEHOLDER) || Contains(path, STARRED)
  }

  lemma ContainsCons(s: string, sub: string)
    requires |s| > 0
    ensures Contains(s, sub) <==> StartsWith(s, sub) || Contains(s[1..], sub)
  {
    if StartsWith(s, sub) {
      assert s[0..] == s;
    }
    if i :| 0 <= i <= |s[1..]| && StartsWith(s[1..][i..], sub) {
      assert s[1..][i..] == s[i + 1..];
    }
    if i :| 0 <= i <= |s| && StartsWith(s[i..], sub) {
      assert i == 0 ==> s[i..] == s;
      assert i > 0 ==> s[1..][i - 1..] == s[i..];
    }
  }

  lemma TokensFirst(path: string)
    requires |path| > 0
    ensures StartsWith(path, "**") ==> Tokens(path) == [DoubleStar] + Tokens(path[2..])
    ensures !StartsWith(path, "**") ==>
              Tokens(path) == [if path[0] == '*' then Star else Lit(path[0])] + Tokens(path[1..])
    ensures StartsWith(path, "**") ==> |path| >= 2 && path[0] == '*' && path[1] == '*'
  {
    if StartsWith(path, "**") {
      assert path[0] == path[..2][0] && path[1] == path[..2][1];
    }
  }

  lemma {:induction false} ContinuesIff(path: string, w: string)
    requires IsWord(w)
    ensures Continues(Tokens(path), w) <==> StartsWith(path, w + [MARK]) || StartsWith(path, w + "**")
    decreases |w|
  {
    if |path| > 0 {
      TokensFirst(path);
      if |w| == 0 {
        assert w + [MARK] == [MARK] && w + "**" == "**";
        assert path[..1] == [path[0]];
      } else {
        var rest := path[1..];
        assert path == [path[0]] + rest;
        StartsWithCons(path[0], rest, w[0], w[1..] + [MARK]);
        StartsWithCons(path[0], rest, w[0], w[1..] + "**");
        assert [w[0]] + (w[1..] + [MARK]) == w + [MARK] && [w[0]] + (w[1..] + "**") == w + "**";
        if path[0] == w[0] {
          ContinuesIff(rest, w[1..]);
          assert Tokens(path)[1..] == Tokens(rest);
        }
      }
    }
  }

  lemma {:induction false} MentionsIff(path: string, w: string, closed: string, starred: string)
    requires IsWord(w) && closed == [MARK] + (w + [MARK]) && starred == [MARK] + (w + "**")
    ensures Contains(path, closed) || Contains(path, starred) <==> Mistakable(Tokens(path), w)
    decreases |path|
  {
    if |path| > 0 {
      TokensFirst(path);
      ContainsCons(path, closed);
      ContainsCons(path, starred);
      StartsWithFirst(path, closed);
      StartsWithFirst(path, starred);
      if StartsWith(path, "**") {
        var rest := path[1..];
        ContainsCons(rest, closed);
        ContainsCons(rest, starred);
        StartsWithFirst(rest, closed);
        StartsWithFirst(rest, starred);
        assert rest[1..] == path[2..];
        MentionsIff(path[2..], w, closed, starred);
        assert Tokens(path)[1..] == Tokens(path[2..]);
      } else {
        MentionsIff(path[1..], w, closed, starred);
        assert Tokens(path)[1..] == Tokens(path[1..]);
        MarkedStart(path, w, closed, starred);
      }
    }
  }

  lemma MarkedStart(path: string, w: string, closed: string, starred: string)
    requires |path| > 0 && IsWord(w) && closed == [MARK] + (w + [MARK]) && starred == [MARK] + (w + "**")
    ensures StartsWith(path, closed) || StartsWith(path, starred) <==>
            path[0] == MARK && Continues(Tokens(path[1..]), w)
  {
    assert path == [path[0]] + path[1..];
    StartsWithCons(path[0], path[1..], MARK, w + [MARK]);
    StartsWithCons(path[0], path[1..], MARK, w + "**");
    ContinuesIff(path[1..], w);
  }

  /** A path pattern without backslash and line break keeps its glob meaning through compilation exactly when it
      contains none of `|`, `^` and `$` and does not mention the placeholder. */
  lemma KvRuleMeaningIff(path: string)
    requires '\\' !in path && '\n' !in path
    ensures CompilesTo(CompileKV(path), Tokens(path)) <==> !HasOperator(path) && !MentionsPlaceholder(path)
    ensures Parse(CompileKV(path)).Some?
  {
    var tokens := Tokens(path);
    var w := TheWord();
    assert PLACEHOLDER == [MARK] + (w + [MARK]) && STARRED == [MARK] + (w + "**");
    CompiledTokens(path, tokens, w);
    LitsInPath(path, '|');
    LitsInPath(path, '^');
    LitsInPath(path, '$');
    LitsInPath(path, '\n');
    MentionsIff(path, w, PLACEHOLDER, STARRED);
    TakenMeaningIff(tokens, w);
  }

  lemma CompiledTokens(path: string, tokens: seq<Token>, w: string)
    requires '\\' !in path && tokens == Tokens(path) && IsWord(w) && Placeholder(w) == PLACEHOLDER
    ensures Parse(CompileKV(path)) == Some(Compiled(Taken(tokens, w)))
  {
    KvPasses(path, w);
    TokensAreLiterals(path, '*');
    TokensAreLiterals(path, '\\');
    TakenAvoids(tokens, w, '*');
    TakenAvoids(tokens, w, '\\');
    ParseAnchored(Taken(tokens, w));
  }

  /** A path that mentions the placeholder accepts a key that the glob does not. */
  lemma MentionedPlaceholderAcceptsMore(path: string) returns (key: string)
    requires '\\' !in path && '\n' !in path && !HasOperator(path) && MentionsPlaceholder(path)
    ensures '\n' !in key && Accepts(CompileKV(path), key) == Some(true) && !Denotes(Tokens(path), key)
  {
    var tokens := Tokens(path);
    var w := TheWord();
    assert PLACEHOLDER == [MARK] + (w + [MARK]) && STARRED == [MARK] + (w + "**");
    CompiledTokens(path, tokens, w);
    LitsInPath(path, '|');
    LitsInPath(path, '^');
    LitsInPath(path, '$');
    LitsInPath(path, '\n');
    MentionsIff(path, w, PLACEHOLDER, STARRED);
    key := MistakenKey(tokens, w);
  }

  /** The same for service name patterns, which use no placeholder. */
  lemma ServiceRuleMeaningIff(name: string)
    requires '\\' !in name && '\n' !in name
    ensures CompilesTo(CompileService(name), ServiceTokens(name)) <==> !HasOperator(name)
    ensures Parse(CompileService(name)).Some?
  {
    var tokens := ServiceTokens(name);
    ServicePasses(name, SPECIALS);
    ServiceTokensAreLiterals(name, '*');
    ServiceTokensAreLiterals(name, '\\');
    ParseAnchored(tokens);
    LitsInName(name, '|');
    LitsInName(name, '^');
    LitsInName(name, '$');
    LitsInName(name, '\n');
    MeaningIff(tokens);
  }
}
