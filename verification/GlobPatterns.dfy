/** What common patterns accept, told in terms of the texts alone. */
module GlobPatterns {
  import opened Prelude
  import opened Glob

  /** The glob accepts the key. */
  ghost predicate Globs(path: string, key: string) {
    Denotes(Tokens(path), key)
  }

  lemma LiteralFirst(c: char, rest: string, key: string)
    requires c != '*'
    ensures Globs([c] + rest, key) <==> |key| > 0 && key[0] == c && Globs(rest, key[1..])
  {
    assert ([c] + rest)[1..] == rest && ([c] + rest)[0] == c;
    assert !StartsWith([c] + rest, "**") by {
      assert |rest| > 0 ==> ([c] + rest)[..2][0] == c;
    }
    assert ([Lit(c)] + Tokens(rest))[1..] == Tokens(rest);
  }

  /** A stem without stars has to be spelled out. */
  lemma {:induction false} StemFirst(stem: string, rest: string, key: string)
    requires '*' !in stem
    ensures Globs(stem + rest, key) <==>
            |stem| <= |key| && key[..|stem|] == stem && Globs(rest, key[|stem|..])
  {
    if |stem| == 0 {
      assert stem + rest == rest && key[0..] == key;
    } else {
      assert stem + rest == [stem[0]] + (stem[1..] + rest);
      LiteralFirst(stem[0], stem[1..] + rest, key);
      if |key| > 0 {
        StemFirst(stem[1..], rest, key[1..]);
        StemOneMore(stem, key);
        if |stem| <= |key| {
          assert key[1..][|stem| - 1..] == key[|stem|..];
        }
      }
    }
  }

  lemma StemOneMore(stem: string, key: string)
    requires |stem| > 0 && |key| > 0
    ensures (|stem| <= |key| && key[..|stem|] == stem) <==>
            (key[0] == stem[0] && |stem| - 1 <= |key| - 1 && key[1..][..|stem| - 1] == stem[1..])
  {
    if |stem| <= |key| {
      assert key[..|stem|] == [key[0]] + key[1..][..|stem| - 1];
      assert stem == [stem[0]] + stem[1..];
    }
  }

  /** A single star stands for any text without a slash. */
  lemma StarFirst(rest: string, key: string)
    requires |rest| > 0 ==> rest[0] != '*'
    ensures Globs("*" + rest, key) <==> exists n :: 0 <= n <= |key| && '/' !in key[..n] && Globs(rest, key[n..])
  {
    var path := "*" + rest;
    assert path[1..] == rest;
    assert !StartsWith(path, "**") by {
      assert |rest| > 0 ==> path[..2][1] == rest[0];
    }
    assert Tokens(path) == [Star] + Tokens(rest) && ([Star] + Tokens(rest))[1..] == Tokens(rest);
  }

  /** Two stars stand for any text. */
  lemma DoubleStarFirst(rest: string, key: string)
    ensures Globs("**" + rest, key) <==> exists n :: 0 <= n <= |key| && Globs(rest, key[n..])
  {
    var path := "**" + rest;
    assert path[..2] == "**" && path[2..] == rest;
    assert Tokens(path) == [DoubleStar] + Tokens(rest) && ([DoubleStar] + Tokens(rest))[1..] == Tokens(rest);
  }

  /** Without stars a pattern accepts itself and nothing else. */
  lemma ExactPathIff(path: string, key: string)
    requires '*' !in path
    ensures Globs(path, key) <==> key == path
  {
    assert path + "" == path;
    StemFirst(path, "", key);
    if |path| <= |key| {
      assert key == key[..|path|] + key[|path|..];
    }
  }

  /** A star at the end: what follows the stem has no slash. */
  lemma OneStarTailIff(stem: string, key: string)
    requires '*' !in stem
    ensures Globs(stem + "*", key) <==> |stem| <= |key| && key[..|stem|] == stem && '/' !in key[|stem|..]
  {
    StemFirst(stem, "*", key);
    if |stem| <= |key| {
      var tail := key[|stem|..];
      assert "*" + "" == "*";
      StarFirst("", tail);
      assert tail[..|tail|] == tail && tail[|tail|..] == "";
    }
  }

  /** Two stars at the end: anything may follow the stem. */
  lemma TwoStarsTailIff(stem: string, key: string)
    requires '*' !in stem
    ensures Globs(stem + "**", key) <==> |stem| <= |key| && key[..|stem|] == stem
  {
    StemFirst(stem, "**", key);
    if |stem| <= |key| {
      var tail := key[|stem|..];
      assert "**" + "" == "**";
      DoubleStarFirst("", tail);
      assert tail[|tail|..] == "";
    }
  }

  /** For service names one star is enough for that. */
  lemma {:induction false} ServiceStarTailIff(stem: string, name: string)
    requires '*' !in stem
    ensures Denotes(ServiceTokens(stem + "*"), name) <==> |stem| <= |name| && name[..|stem|] == stem
    ensures Denotes(ServiceTokens(stem), name) <==> name == stem
  {
    if |stem| == 0 {
      assert stem + "*" == "*" && ServiceTokens("*") == [DoubleStar] + ServiceTokens("") == [DoubleStar];
      assert name[|name|..] == "";
    } else {
      var c, rest := stem[0], stem[1..];
      assert (stem + "*")[0] == c && (stem + "*")[1..] == rest + "*";
      assert ServiceTokens(stem + "*") == [Lit(c)] + ServiceTokens(rest + "*");
      assert ServiceTokens(stem) == [Lit(c)] + ServiceTokens(rest);
      if |name| > 0 {
        ServiceStarTailIff(rest, name[1..]);
        StemOneMore(stem, name);
        assert name == [name[0]] + name[1..] && stem == [c] + rest;
      }
    }
  }
}
