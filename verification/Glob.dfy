/**
 The access-control path patterns: a chain of string replacements turns a glob into a regular expression. Only the part
 of the regular-expression language that the chain can emit (from patterns without backslash) is given a meaning.
 Characters stand for the program's text; the placeholder's section sign is one of them.
 */
module Glob {
  import opened Prelude

  /** Every occurrence of `what`, leftmost first and without overlaps, becomes `with`. */
  function ReplaceAll(s: string, what: string, with: string): string
    requires |what| > 0
    decreases |s|
  {
    if |s| == 0 then []
    else if StartsWith(s, what) then with + ReplaceAll(s[|what|..], what, with)
    else [s[0]] + ReplaceAll(s[1..], what, with)
  }

  const MARK: char := '\U{00A7}'
  const PLACEHOLDER: string := [MARK] + "DOUBLESTAR" + [MARK]

  /** The characters that the first passes escape, in that order. */
  const SPECIALS: string := ".+?[](){}"

  function Escaped(pattern: string, specials: string): string
    decreases |specials|
  {
    if |specials| == 0 then pattern
    else Escaped(ReplaceAll(pattern, [specials[0]], ['\\', specials[0]]), specials[1..])
  }

  function WithStars(pattern: string): string {
    ReplaceAll(ReplaceAll(ReplaceAll(pattern, "**", PLACEHOLDER), "*", "[^/]*"), PLACEHOLDER, ".*")
  }

  function Anchored(pattern: string): string {
    var head := if StartsWith(pattern, "^") then pattern else "^" + pattern;
    if |head| > 0 && head[|head| - 1] == '$' then head else head + "$"
  }

  /** The string that a key-value rule hands to the regular-expression compiler. */
  function CompileKV(path: string): string {
    Anchored(WithStars(Escaped(path, SPECIALS)))
  }

  /** The same for a service rule, where one star already crosses everything. */
  function CompileService(name: string): string {
    Anchored(ReplaceAll(Escaped(name, SPECIALS), "*", ".*"))
  }

  // ---- Globs: the intended meaning -----------------------------------------------------------------------------

  datatype Token = Lit(c: char) | Star | DoubleStar

  /** Runs of stars are read greedily in pairs; every other character is literal. */
  function Tokens(path: string): seq<Token>
    decreases |path|
  {
    if |path| == 0 then []
    else if StartsWith(path, "**") then [DoubleStar] + Tokens(path[2..])
    else if path[0] == '*' then [Star] + Tokens(path[1..])
    else [Lit(path[0])] + Tokens(path[1..])
  }

  /** For services every star is a double star. */
  function ServiceTokens(name: string): seq<Token> {
    if |name| == 0 then [] else [if name[0] == '*' then DoubleStar else Lit(name[0])] + ServiceTokens(name[1..])
  }

  /** A star stands for any text without a slash, a double star for any text. */
  ghost predicate Denotes(tokens: seq<Token>, key: string)
    decreases |tokens|
  {
    if |tokens| == 0 then key == ""
    else match tokens[0]
      case Lit(c) => |key| > 0 && key[0] == c && Denotes(tokens[1..], key[1..])
      case Star => exists n :: 0 <= n <= |key| && '/' !in key[..n] && Denotes(tokens[1..], key[n..])
      case DoubleStar => exists n :: 0 <= n <= |key| && Denotes(tokens[1..], key[n..])
  }

  // ---- Regular expressions: what the compiler makes of the string ----------------------------------------------

  datatype Atom = Char(c: char) | NotSlashes | Anything | LineStart | LineEnd

  /** Characters with a meaning of their own, which never stand for themselves unescaped. */
  predicate IsMeta(c: char) {
    c in "\\.+*?()[]{}|^$"
  }

  /** The alternatives of the expression, each a sequence of atoms; `None` outside the fragment. */
  function Parse(s: string): Option<seq<seq<Atom>>>
    decreases |s|
  {
    if |s| == 0 then Some([[]])
    else if StartsWith(s, "[^/]*") then Prefixed(NotSlashes, Parse(s[5..]))
    else if StartsWith(s, ".*") then Prefixed(Anything, Parse(s[2..]))
    else if s[0] == '\\' then
      if |s| > 1 && s[1] in SPECIALS then Prefixed(Char(s[1]), Parse(s[2..])) else None
    else if s[0] == '^' then Prefixed(LineStart, Parse(s[1..]))
    else if s[0] == '$' then Prefixed(LineEnd, Parse(s[1..]))
    else if s[0] == '|' then
      var rest := Parse(s[1..]);
      if rest.Some? then Some([[]] + rest.value) else None
    else if IsMeta(s[0]) then None
    else Prefixed(Char(s[0]), Parse(s[1..]))
  }

  function Prefixed(a: Atom, rest: Option<seq<seq<Atom>>>): Option<seq<seq<Atom>>> {
    if rest.Some? && |rest.value| > 0 then Some([[a] + rest.value[0]] + rest.value[1..]) else None
  }

  /** The atoms match a stretch of `key` that begins at position `i`; `.` does not match a line break. */
  predicate MatchesAt(atoms: seq<Atom>, key: string, i: nat)
    requires i <= |key|
    decreases |atoms|, |key| - i
  {
    if |atoms| == 0 then true
    else match atoms[0]
      case Char(c) => i < |key| && key[i] == c && MatchesAt(atoms[1..], key, i + 1)
      case NotSlashes => MatchesAt(atoms[1..], key, i) || (i < |key| && key[i] != '/' && MatchesAt(atoms, key, i + 1))
      case Anything => MatchesAt(atoms[1..], key, i) || (i < |key| && key[i] != '\n' && MatchesAt(atoms, key, i + 1))
      case LineStart => i == 0 && MatchesAt(atoms[1..], key, i)
      case LineEnd => i == |key| && MatchesAt(atoms[1..], key, i)
  }

  /** `MatchString`: some alternative matches somewhere. */
  predicate MatchString(alternatives: seq<seq<Atom>>, key: string) {
    exists a, i :: 0 <= a < |alternatives| && 0 <= i <= |key| && MatchesAt(alternatives[a], key, i)
  }

  /** The answer of a compiled expression; `None` when the string is outside the fragment. */
  function Accepts(regex: string, key: string): Option<bool> {
    var alternatives := Parse(regex);
    if alternatives.Some? then Some(MatchString(alternatives.value, key)) else None
  }

  /** The rule object: the pattern is compiled on first use. */
  class KVRule {
    const path: string
    var compiled: Option<string>

    ghost predicate Valid()
      reads this
    {
      compiled.Some? ==> compiled.value == CompileKV(path)
    }

    constructor (path: string)
      ensures Valid() && this.path == path
    {
      this.path := path;
      compiled := None;
    }

    method Compile()
      modifies this
      ensures Valid() && compiled == Some(CompileKV(path))
    {
      var pattern := path;
      var i := 0;
      while i < |SPECIALS|
        invariant 0 <= i <= |SPECIALS|
        invariant Escaped(pattern, SPECIALS[i..]) == Escaped(path, SPECIALS)
      {
        assert SPECIALS[i..][1..] == SPECIALS[i + 1..];
        pattern := ReplaceAll(pattern, [SPECIALS[i]], ['\\', SPECIALS[i]]);
        i := i + 1;
      }
      pattern := ReplaceAll(pattern, "**", PLACEHOLDER);
      pattern := ReplaceAll(pattern, "*", "[^/]*");
      pattern := ReplaceAll(pattern, PLACEHOLDER, ".*");
      if !StartsWith(pattern, "^") {
        pattern := "^" + pattern;
      }
      if pattern[|pattern| - 1] != '$' {
        pattern := pattern + "$";
      }
      compiled := Some(pattern);
    }

    /** Compiles when needed; the answer is that of the compiled path whether or not it was compiled before. */
    method Matches(key: string) returns (answer: Option<bool>)
      requires Valid()
      modifies this
      ensures Valid() && compiled == Some(CompileKV(path))
      ensures answer == Accepts(CompileKV(path), key)
    {
      if compiled.None? {
        Compile();
      }
      answer := Accepts(compiled.value, key);
    }
  }
}
