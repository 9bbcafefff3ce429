// File search by glob: the translation to a LIKE pattern
// (backend/open_webui/models/files.py) and the hand-written LIKE with its cache
// of compiled patterns (backend/open_webui/internal/db.py).
module GlobLike {
  import opened Basics

  // ---- the translation -------------------------------------------------------

  // str.replace for a pattern of one character
  function Replace(s: string, c: char, replacement: string): string {
    if s == [] then [] else (if s[0] == c then replacement else [s[0]]) + Replace(s[1..], c, replacement)
  }

  function GlobToLikePattern(glob: string): string {
    var pattern := Replace(glob, '\\', "\\\\");
    var pattern := Replace(pattern, '%', "\\%");
    var pattern := Replace(pattern, '_', "\\_");
    var pattern := Replace(pattern, '*', "%");
    Replace(pattern, '?', "_")
  }

  function TranslateChar(c: char): string {
    match c
    case '*' => "%"
    case '?' => "_"
    case _ => if c in {'\\', '%', '_'} then ['\\', c] else [c]
  }

  function Translate(glob: string): string {
    if glob == [] then [] else TranslateChar(glob[0]) + Translate(glob[1..])
  }

  lemma {:induction false} ReplaceAppend(a: string, b: string, c: char, replacement: string)
    ensures Replace(a + b, c, replacement) == Replace(a, c, replacement) + Replace(b, c, replacement)
  {
    if a == [] {
      assert a + b == b;
    } else {
      assert (a + b)[1..] == a[1..] + b;
      ReplaceAppend(a[1..], b, c, replacement);
    }
  }

  lemma PatternAppend(a: string, b: string)
    ensures GlobToLikePattern(a + b) == GlobToLikePattern(a) + GlobToLikePattern(b)
  {
    var a1, b1 := Replace(a, '\\', "\\\\"), Replace(b, '\\', "\\\\");
    var a2, b2 := Replace(a1, '%', "\\%"), Replace(b1, '%', "\\%");
    var a3, b3 := Replace(a2, '_', "\\_"), Replace(b2, '_', "\\_");
    var a4, b4 := Replace(a3, '*', "%"), Replace(b3, '*', "%");
    ReplaceAppend(a, b, '\\', "\\\\");
    ReplaceAppend(a1, b1, '%', "\\%");
    ReplaceAppend(a2, b2, '_', "\\_");
    ReplaceAppend(a3, b3, '*', "%");
    ReplaceAppend(a4, b4, '?', "_");
  }

  lemma PatternOfChar(c: char)
    ensures GlobToLikePattern([c]) == TranslateChar(c)
  {
  }

  // The five successive replaces are one translation per character: no later
  // replace touches what an earlier one produced.
  lemma {:induction false} SequentialIsPerChar(glob: string)
    ensures GlobToLikePattern(glob) == Translate(glob)
  {
    if glob == [] {
    } else {
      assert glob == [glob[0]] + glob[1..];
      PatternAppend([glob[0]], glob[1..]);
      PatternOfChar(glob[0]);
      SequentialIsPerChar(glob[1..]);
    }
  }

  // ---- LIKE ------------------------------------------------------------------

  // The pieces of the regular expression: `.*`, `.` and an escaped character.
  datatype Token = AnyRun | AnyChar | Lit(c: char)

  function TokenOf(c: char, escaped: bool): Token {
    if !escaped && c == '%' then AnyRun else if !escaped && c == '_' then AnyChar else Lit(c)
  }

  // The escape is a string; only one of length 1 can equal a character.
  function Escapes(escape: Option<string>, c: char): bool {
    escape.Some? && escape.value == [c]
  }

  // None stands for a pattern that ends in a lone escape.
  function Compile(pattern: string, escape: Option<string>, escaped: bool): Option<seq<Token>> {
    if pattern == [] then
      if escaped then None else Some([])
    else if !escaped && Escapes(escape, pattern[0]) then
      Compile(pattern[1..], escape, true)
    else
      var rest := Compile(pattern[1..], escape, false);
      if rest.None? then None else Some([TokenOf(pattern[0], escaped)] + rest.value)
  }

  // re.fullmatch with DOTALL
  predicate FullMatch(tokens: seq<Token>, s: string)
    decreases |tokens| + |s|
  {
    if tokens == [] then s == []
    else match tokens[0]
      case AnyRun => FullMatch(tokens[1..], s) || (s != [] && FullMatch(tokens, s[1..]))
      case AnyChar => s != [] && FullMatch(tokens[1..], s[1..])
      case Lit(c) => s != [] && s[0] == c && FullMatch(tokens[1..], s[1..])
  }

  // str.lower, character by character
  function Folded(fold: char -> char, s: string): (r: string)
    ensures |r| == |s| && forall i :: 0 <= i < |s| ==> r[i] == fold(s[i])
  {
    if s == [] then [] else [fold(s[0])] + Folded(fold, s[1..])
  }

  function FoldedEscape(fold: char -> char, escape: Option<string>): Option<string> {
    if escape.None? then None else Some(Folded(fold, escape.value))
  }

  // What `like` computes without its cache; NULL operands give NULL.
  function Like(fold: char -> char, pattern: Option<string>, value: Option<string>, escape: Option<string>)
    : Option<bool>
  {
    if pattern.None? || value.None? then None
    else
      var tokens := Compile(Folded(fold, pattern.value), FoldedEscape(fold, escape), false);
      Some(tokens.Some? && FullMatch(tokens.value, Folded(fold, value.value)))
  }

  // The number of escape characters at the end of a pattern.
  function TrailingRun(pattern: string, e: char): nat {
    if pattern == [] || pattern[|pattern| - 1] != e then 0 else 1 + TrailingRun(pattern[..|pattern| - 1], e)
  }

  lemma {:induction false} CompileFails(pattern: string, e: char, escaped: bool)
    ensures Compile(pattern, Some([e]), escaped).None? <==>
            (TrailingRun(pattern, e) % 2 == 1) != (escaped && TrailingRun(pattern, e) == |pattern|)
  {
    if pattern == [] {
    } else {
      var rest := pattern[1..];
      TrailingRunOfTail(pattern, e);
      CompileFails(rest, e, !escaped && pattern[0] == e);
    }
  }

  lemma {:induction false} TrailingRunOfTail(pattern: string, e: char)
    requires pattern != []
    ensures var k := TrailingRun(pattern[1..], e);
            k <= |pattern| - 1 &&
            TrailingRun(pattern, e) == if k == |pattern| - 1 && pattern[0] == e then k + 1 else k
  {
    var n := |pattern| - 1;
    if n > 0 && pattern[n] == e {
      assert pattern[..n][1..] == pattern[1..][..n - 1];
      TrailingRunOfTail(pattern[..n], e);
    }
  }

  // A pattern is malformed exactly when it ends in an odd run of escapes.
  lemma MalformedIff(pattern: string, e: char)
    ensures Compile(pattern, Some([e]), false).None? <==> TrailingRun(pattern, e) % 2 == 1
  {
    CompileFails(pattern, e, false);
  }

  // ---- the meaning of a glob ---------------------------------------------------

  // `*` matches any run, `?` one character, any other character itself up to case.
  ghost predicate GlobMatches(fold: char -> char, glob: string, name: string)
    decreases |glob|
  {
    if glob == [] then name == []
    else if glob[0] == '*' then exists k :: 0 <= k <= |name| && GlobMatches(fold, glob[1..], name[k..])
    else name != [] && (glob[0] == '?' || fold(glob[0]) == fold(name[0])) && GlobMatches(fold, glob[1..], name[1..])
  }

  // Case folding neither moves nor creates the characters LIKE treats specially.
  ghost predicate SafeFold(fold: char -> char) {
    forall c :: c in {'%', '_', '\\'} || fold(c) in {'%', '_', '\\'} ==> fold(c) == c
  }

  function GlobTokens(fold: char -> char, glob: string): seq<Token> {
    if glob == [] then []
    else [if glob[0] == '*' then AnyRun else if glob[0] == '?' then AnyChar else Lit(fold(glob[0]))] +
         GlobTokens(fold, glob[1..])
  }

  const BACKSLASH: Option<string> := Some("\\")

  lemma {:induction false} FoldedAppend(fold: char -> char, a: string, b: string)
    ensures Folded(fold, a + b) == Folded(fold, a) + Folded(fold, b)
  {
  }

  // The translated pattern compiles, and to the glob's own tokens.
  lemma {:induction false} TranslatedCompiles(fold: char -> char, glob: string)
    requires SafeFold(fold)
    ensures Compile(Folded(fold, Translate(glob)), BACKSLASH, false) == Some(GlobTokens(fold, glob))
  {
    if glob == [] {
    } else {
      var c, rest := glob[0], Folded(fold, Translate(glob[1..]));
      FoldedAppend(fold, TranslateChar(c), Translate(glob[1..]));
      TranslatedCompiles(fold, glob[1..]);
      var pattern := Folded(fold, Translate(glob));
      if c in {'\\', '%', '_'} {
        assert Folded(fold, TranslateChar(c)) == ['\\', c];
        assert pattern == ['\\', c] + rest;
        assert pattern[1..] == [c] + rest && pattern[1..][1..] == rest;
      } else {
        var d := TranslateChar(c)[0];
        assert Folded(fold, TranslateChar(c)) == [fold(d)];
        assert pattern == [fold(d)] + rest;
        assert pattern[1..] == rest;
      }
    }
  }

  lemma {:induction false} RunMatches(tokens: seq<Token>, s: string)
    requires tokens != [] && tokens[0] == AnyRun
    ensures FullMatch(tokens, s) <==> exists k :: 0 <= k <= |s| && FullMatch(tokens[1..], s[k..])
    decreases |s|
  {
    if s == [] {
    } else {
      RunMatches(tokens, s[1..]);
      forall k | 0 <= k < |s| ensures s[1..][k..] == s[k + 1..] {}
      if k :| 0 <= k <= |s| && FullMatch(tokens[1..], s[k..]) {
        if k > 0 {
          assert s[1..][k - 1..] == s[k..];
        } else {
          assert s[0..] == s;
        }
      }
    }
    assert s[0..] == s;
  }

  // LIKE by its definition, for any pattern and escape character: `%` matches any
  // run, `_` one character, the escape makes the next character stand for itself
  // and matches nothing when it is last.
  ghost predicate LikeMatches(pattern: string, e: Option<char>, s: string)
    decreases |pattern|
  {
    if pattern == [] then s == []
    else if e == Some(pattern[0]) then
      |pattern| > 1 && s != [] && s[0] == pattern[1] && LikeMatches(pattern[2..], e, s[1..])
    else if pattern[0] == '%' then exists k :: 0 <= k <= |s| && LikeMatches(pattern[1..], e, s[k..])
    else s != [] && (pattern[0] == '_' || pattern[0] == s[0]) && LikeMatches(pattern[1..], e, s[1..])
  }

  // The escape is a string, and only one of length 1 escapes anything.
  function EscapeChar(escape: Option<string>): Option<char> {
    if escape.Some? && |escape.value| == 1 then Some(escape.value[0]) else None
  }

  ghost predicate CompiledMatches(pattern: string, escape: Option<string>, s: string) {
    var tokens := Compile(pattern, escape, false);
    tokens.Some? && FullMatch(tokens.value, s)
  }

  // The state machine and the token matcher agree with the definition.
  lemma {:induction false} CompiledMeans(pattern: string, escape: Option<string>, s: string)
    ensures CompiledMatches(pattern, escape, s) <==> LikeMatches(pattern, EscapeChar(escape), s)
    decreases |pattern|
  {
    if pattern == [] {
    } else if EscapeChar(escape) == Some(pattern[0]) {
      EscapedMeans(pattern, escape, s);
    } else {
      var tail := Compile(pattern[1..], escape, false);
      if pattern[0] == '%' {
        if tail.Some? {
          var tokens := [AnyRun] + tail.value;
          RunMatches(tokens, s);
          assert tokens[1..] == tail.value;
        }
        forall k | 0 <= k <= |s|
          ensures CompiledMatches(pattern[1..], escape, s[k..]) <==>
                  LikeMatches(pattern[1..], EscapeChar(escape), s[k..])
        {
          CompiledMeans(pattern[1..], escape, s[k..]);
        }
      } else if s != [] {
        CompiledMeans(pattern[1..], escape, s[1..]);
        assert tail.Some? ==> ([TokenOf(pattern[0], false)] + tail.value)[1..] == tail.value;
      }
    }
  }

  lemma {:induction false} EscapedMeans(pattern: string, escape: Option<string>, s: string)
    requires pattern != [] && EscapeChar(escape) == Some(pattern[0])
    ensures CompiledMatches(pattern, escape, s) <==> LikeMatches(pattern, EscapeChar(escape), s)
    decreases |pattern|, 0
  {
    assert escape.value == [pattern[0]];
    assert Compile(pattern, escape, false) == Compile(pattern[1..], escape, true);
    if |pattern| > 1 {
      assert pattern[1..][1..] == pattern[2..];
      var tail := Compile(pattern[2..], escape, false);
      assert tail.Some? ==> ([Lit(pattern[1])] + tail.value)[1..] == tail.value;
      if s != [] {
        CompiledMeans(pattern[2..], escape, s[1..]);
      }
    }
  }

  // What `like` answers, on every pattern and escape: NULL for a NULL operand,
  // else whether LIKE matches the folded operands.
  lemma LikeMeaning(fold: char -> char, pattern: Option<string>, value: Option<string>, escape: Option<string>)
    ensures Like(fold, pattern, value, escape) ==
            if pattern.None? || value.None? then None
            else
              var e := if EscapeChar(escape).Some? then Some(fold(EscapeChar(escape).value)) else None;
              Some(LikeMatches(Folded(fold, pattern.value), e, Folded(fold, value.value)))
  {
    if pattern.Some? && value.Some? {
      CompiledMeans(Folded(fold, pattern.value), FoldedEscape(fold, escape), Folded(fold, value.value));
    }
  }

  lemma {:induction false} TokensMean(fold: char -> char, glob: string, name: string)
    ensures FullMatch(GlobTokens(fold, glob), Folded(fold, name)) <==> GlobMatches(fold, glob, name)
    decreases |glob|
  {
    if glob == [] {
    } else {
      var tokens, s := GlobTokens(fold, glob), Folded(fold, name);
      assert tokens[1..] == GlobTokens(fold, glob[1..]);
      if glob[0] == '*' {
        RunMatches(tokens, s);
        forall k | 0 <= k <= |name|
          ensures FullMatch(tokens[1..], s[k..]) <==> GlobMatches(fold, glob[1..], name[k..])
        {
          assert s[k..] == Folded(fold, name[k..]);
          TokensMean(fold, glob[1..], name[k..]);
        }
      } else if name != [] {
        assert s[1..] == Folded(fold, name[1..]);
        TokensMean(fold, glob[1..], name[1..]);
      }
    }
  }

  // LIKE accepts a name against the translated pattern if and only if the glob does.
  lemma GlobLikeAgree(fold: char -> char, glob: string, name: string)
    requires SafeFold(fold)
    ensures Like(fold, Some(GlobToLikePattern(glob)), Some(name), BACKSLASH) == Some(GlobMatches(fold, glob, name))
  {
    SequentialIsPerChar(glob);
    assert Folded(fold, "\\") == "\\";
    TranslatedCompiles(fold, glob);
    TokensMean(fold, glob, name);
  }

  // ---- search_files --------------------------------------------------------------

  // `ilike` lowers both operands in SQL before LIKE folds them again; the pattern
  // "%" is not sent to the database at all.
  function Selected(fold: char -> char, sqlLower: char -> char, glob: string, name: string): bool {
    var pattern := GlobToLikePattern(glob);
    pattern == "%" ||
    Like(fold, Some(Folded(sqlLower, pattern)), Some(Folded(sqlLower, name)), BACKSLASH) == Some(true)
  }

  lemma FoldedTwice(f: char -> char, g: char -> char, s: string)
    ensures Folded(f, Folded(g, s)) == Folded(c => f(g(c)), s)
  {
  }

  // A search returns exactly the files whose name the glob matches.
  lemma SearchMatchesGlob(fold: char -> char, sqlLower: char -> char, glob: string, name: string)
    requires SafeFold(fold) && SafeFold(sqlLower)
    ensures Selected(fold, sqlLower, glob, name) <==> GlobMatches(c => fold(sqlLower(c)), glob, name)
  {
    var both := c => fold(sqlLower(c));
    var pattern := GlobToLikePattern(glob);
    FoldedTwice(fold, sqlLower, pattern);
    FoldedTwice(fold, sqlLower, name);
    assert Folded(fold, "\\") == "\\" && Folded(both, "\\") == "\\";
    GlobLikeAgree(both, glob, name);
    if pattern == "%" {
      SequentialIsPerChar(glob);
      OnlyStar(glob);
      assert name[|name|..] == [];
    }
  }

  lemma TranslateLength(glob: string)
    ensures |Translate(glob)| >= |glob|
  {
  }

  lemma OnlyStar(glob: string)
    requires Translate(glob) == "%"
    ensures glob == "*"
  {
    TranslateLength(glob);
    assert glob == [glob[0]] && glob[1..] == [];
    assert TranslateChar(glob[0]) + [] == TranslateChar(glob[0]);
    assert |TranslateChar(glob[0])| == 1 && TranslateChar(glob[0])[0] == '%';
  }

  // ---- the cache -------------------------------------------------------------------

  // `False` marks a malformed pattern.
  datatype Compiled = Malformed | Regex(tokens: seq<Token>)

  type Key = (string, Option<string>)

  ghost function CompiledFor(key: Key): Compiled {
    var tokens := Compile(key.0, key.1, false);
    if tokens.None? then Malformed else Regex(tokens.value)
  }

  const CACHE_LIMIT := 512

  class LikeFunction {
    const fold: char -> char
    var compiledPatterns: map<Key, Compiled>

    constructor (fold: char -> char)
      ensures Valid() && this.fold == fold
    {
      this.fold := fold;
      compiledPatterns := map[];
    }

    ghost predicate Valid()
      reads this
    {
      |compiledPatterns| <= CACHE_LIMIT &&
      forall k :: k in compiledPatterns ==> compiledPatterns[k] == CompiledFor(k)
    }

    method Remember(key: Key, compiled: Compiled)
      requires Valid() && key !in compiledPatterns && compiled == CompiledFor(key)
      modifies this
      ensures Valid()
      ensures compiledPatterns ==
                (if |old(compiledPatterns)| >= 512 then map[] else old(compiledPatterns))[key := compiled]
    {
      if |compiledPatterns| >= CACHE_LIMIT {
        compiledPatterns := map[];
      }
      compiledPatterns := compiledPatterns[key := compiled];
    }

    // Over every sequence of calls the cached function returns what the uncached
    // one would, and the cache stays within its limit.
    method Call(pattern: Option<string>, value: Option<string>, escape: Option<string>) returns (r: Option<bool>)
      requires Valid()
      modifies this
      ensures Valid() && |compiledPatterns| <= 512
      ensures r == Like(fold, pattern, value, escape)
    {
      if pattern.None? || value.None? {
        return None;
      }
      var pat, esc := Folded(fold, pattern.value), FoldedEscape(fold, escape);
      var compiled: Compiled;
      if (pat, esc) in compiledPatterns {
        compiled := compiledPatterns[(pat, esc)];
        if compiled == Malformed {
          return Some(false);
        }
      } else {
        compiled := CompilePattern(pat, esc);
        Remember((pat, esc), compiled);
        if compiled == Malformed {
          return Some(false);
        }
      }
      return Some(FullMatch(compiled.tokens, Folded(fold, value.value)));
    }
  }

  // The escape state machine.
  method CompilePattern(pattern: string, escape: Option<string>) returns (compiled: Compiled)
    ensures compiled == CompiledFor((pattern, escape))
  {
    var regex := [];
    var escaped := false;
    var i := 0;
    assert pattern[i..] == pattern;
    ghost var whole := Compile(pattern, escape, false);
    if whole.Some? {
      assert regex + whole.value == whole.value;
    }
    while i < |pattern|
      invariant 0 <= i <= |pattern|
      invariant var rest := Compile(pattern[i..], escape, escaped);
                Compile(pattern, escape, false) == if rest.None? then None else Some(regex + rest.value)
    {
      assert pattern[i..][1..] == pattern[i + 1..];
      var c := pattern[i];
      if escape.Some? && escape.value != "" && !escaped && escape.value == [c] {
        escaped := true;
      } else {
        ghost var rest := Compile(pattern[i + 1..], escape, false);
        if rest.Some? {
          assert regex + ([TokenOf(c, escaped)] + rest.value) == regex + [TokenOf(c, escaped)] + rest.value;
        }
        regex := regex + [TokenOf(c, escaped)];
        escaped := false;
      }
      i := i + 1;
    }
    assert pattern[i..] == [];
    compiled := if escaped then Malformed else Regex(regex);
  }
}
