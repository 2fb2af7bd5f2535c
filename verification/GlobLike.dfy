/** Translating path globs into SQL LIKE patterns. */
module GlobLike {
  import opened Wrappers

  // ---------- what a glob means ----------

  /** `Globstar(true)` is `**` followed by a slash. */
  datatype Token = Lit(c: char) | AnyChar | Star | Globstar(slash: bool)

  /** A run of two or more stars is one globstar, which takes a slash right behind it. */
  function Tokens(glob: string): (ts: seq<Token>)
    decreases |glob|
  {
    if |glob| == 0 then []
    else if glob[0] == '*' then
      if |glob| > 1 && glob[1] == '*' then
        var rest := SkipStars(glob[2..]);
        if |rest| > 0 && rest[0] == '/' then [Globstar(true)] + Tokens(rest[1..])
        else [Globstar(false)] + Tokens(rest)
      else [Star] + Tokens(glob[1..])
    else if glob[0] == '?' then [AnyChar] + Tokens(glob[1..])
    else [Lit(glob[0])] + Tokens(glob[1..])
  }

  function SkipStars(s: string): (rest: string)
    ensures |rest| <= |s| && (|rest| > 0 ==> rest[0] != '*')
  {
    if |s| > 0 && s[0] == '*' then SkipStars(s[1..]) else s
  }

  predicate NoSlash(s: string) {
    '/' !in s
  }

  /** The paths a glob accepts: `*` and `?` stay within a path component, and a
    * globstar with its slash spans any number of whole components. */
  ghost predicate GlobMatches(ts: seq<Token>, path: string)
    decreases |ts|
  {
    if |ts| == 0 then |path| == 0
    else
      match ts[0]
      case Lit(c) => |path| > 0 && path[0] == c && GlobMatches(ts[1..], path[1..])
      case AnyChar => |path| > 0 && path[0] != '/' && GlobMatches(ts[1..], path[1..])
      case Star => exists k :: 0 <= k <= |path| && NoSlash(path[..k]) && GlobMatches(ts[1..], path[k..])
      case Globstar(slash) =>
        exists k :: 0 <= k <= |path| && (slash && 0 < k ==> path[k - 1] == '/') && GlobMatches(ts[1..], path[k..])
  }

  /** The same, with every wildcard allowed to cross slashes and a globstar's slash ignored. */
  ghost predicate LooseMatches(ts: seq<Token>, path: string)
    decreases |ts|
  {
    if |ts| == 0 then |path| == 0
    else
      match ts[0]
      case Lit(c) => |path| > 0 && path[0] == c && LooseMatches(ts[1..], path[1..])
      case AnyChar => |path| > 0 && LooseMatches(ts[1..], path[1..])
      case Star => exists k :: 0 <= k <= |path| && LooseMatches(ts[1..], path[k..])
      case Globstar(_) => exists k :: 0 <= k <= |path| && LooseMatches(ts[1..], path[k..])
  }

  lemma {:induction false} StrictIsLoose(ts: seq<Token>, path: string)
    requires GlobMatches(ts, path)
    ensures LooseMatches(ts, path)
    decreases |ts|
  {
    if |ts| > 0 {
      match ts[0]
      case Lit(c) => StrictIsLoose(ts[1..], path[1..]);
      case AnyChar => StrictIsLoose(ts[1..], path[1..]);
      case Star =>
        var k :| 0 <= k <= |path| && NoSlash(path[..k]) && GlobMatches(ts[1..], path[k..]);
        StrictIsLoose(ts[1..], path[k..]);
      case Globstar(slash) =>
        var k :| 0 <= k <= |path| && (slash && 0 < k ==> path[k - 1] == '/') && GlobMatches(ts[1..], path[k..]);
        StrictIsLoose(ts[1..], path[k..]);
    }
  }

  // ---------- what a LIKE pattern means ----------

  /** `value LIKE pattern`: `%` is any run of characters, `_` any one character. */
  ghost predicate Like(pattern: string, value: string)
    decreases |pattern|
  {
    if |pattern| == 0 then |value| == 0
    else if pattern[0] == '%' then exists k :: 0 <= k <= |value| && Like(pattern[1..], value[k..])
    else |value| > 0 && (pattern[0] == '_' || pattern[0] == value[0]) && Like(pattern[1..], value[1..])
  }

  // ---------- the translation ----------

  predicate Refused(c: char) {
    c in "'\\%_"
  }

  function Translated(t: Token): char {
    match t
    case Lit(c) => c
    case AnyChar => '_'
    case Star => '%'
    case Globstar(_) => '%'
  }

  function TranslatedAll(ts: seq<Token>): string {
    seq(|ts|, k requires 0 <= k < |ts| => Translated(ts[k]))
  }

  method SkipStarRun(glob: string, start: nat) returns (i: nat)
    requires start <= |glob|
    ensures start <= i <= |glob| && SkipStars(glob[i..]) == SkipStars(glob[start..])
    ensures (forall k :: start <= k < i ==> glob[k] == '*') && (i < |glob| ==> glob[i] != '*')
  {
    i := start;
    while i < |glob| && glob[i] == '*'
      invariant start <= i <= |glob| && SkipStars(glob[i..]) == SkipStars(glob[start..])
      invariant forall k :: start <= k < i ==> glob[k] == '*'
    {
      assert glob[i..][1..] == glob[i + 1..];
      i := i + 1;
    }
  }

  /** One turn of the translation, at a character that is not refused. */
  method TranslateOne(glob: string, i: nat) returns (c: char, next: nat)
    requires i < |glob| && !Refused(glob[i])
    ensures i < next <= |glob| && forall k :: i <= k < next ==> !Refused(glob[k])
    ensures var ts := Tokens(glob[i..]); 0 < |ts| && c == Translated(ts[0]) && Tokens(glob[next..]) == ts[1..]
  {
    assert glob[i..][1..] == glob[i + 1..];
    c, next := glob[i], i + 1;
    if c == '*' {
      c := '%';
      if i + 1 < |glob| && glob[i + 1] == '*' {
        next := SkipStarRun(glob, i + 2);
        assert glob[i..][2..] == glob[i + 2..];
        if next < |glob| && glob[next] == '/' {
          assert glob[next..][1..] == glob[next + 1..];
          next := next + 1;
        }
      }
    } else if c == '?' {
      c := '_';
    }
  }

  method GlobToLike(glob: string) returns (pattern: Option<string>)
    ensures pattern.Some? <==> Translatable(glob)
    ensures pattern.Some? ==> pattern.value == TranslatedAll(Tokens(glob))
  {
    var out := "";
    var i := 0;
    assert glob[0..] == glob;
    while i < |glob|
      invariant 0 <= i <= |glob|
      invariant out + TranslatedAll(Tokens(glob[i..])) == TranslatedAll(Tokens(glob))
      invariant forall k :: 0 <= k < i ==> !Refused(glob[k])
    {
      if Refused(glob[i]) {
        return None;
      }
      var c, next := TranslateOne(glob, i);
      TranslateFront(glob[i..], out, out + [c], glob[next..]);
      out, i := out + [c], next;
    }
    pattern := Some(out);
  }

  /** Appending one translated token while consuming it keeps the total translation. */
  lemma {:induction false} TranslateFront(s: string, out: string, out': string, rest: string)
    requires 0 < |Tokens(s)| && out' == out + [Translated(Tokens(s)[0])] && Tokens(rest) == Tokens(s)[1..]
    ensures out' + TranslatedAll(Tokens(rest)) == out + TranslatedAll(Tokens(s))
  {
    var a, b := TranslatedAll(Tokens(s)), TranslatedAll(Tokens(rest));
    assert a == [a[0]] + b;
  }

  /** A token other than a literal carries its own meaning; a literal must not be a LIKE wildcard. */
  predicate Plain(t: Token) {
    t.Lit? ==> !Refused(t.c)
  }

  /** Token by token, the pattern accepts exactly what the loose glob accepts. */
  lemma {:induction false} LikeIsLoose(ts: seq<Token>, path: string)
    requires forall k :: 0 <= k < |ts| ==> Plain(ts[k])
    ensures Like(TranslatedAll(ts), path) <==> LooseMatches(ts, path)
    decreases |ts|
  {
    var p := TranslatedAll(ts);
    if |ts| > 0 {
      assert p[1..] == TranslatedAll(ts[1..]);
      assert Plain(ts[0]);
      if p[0] == '%' {
        forall k | 0 <= k <= |path|
          ensures Like(p[1..], path[k..]) <==> LooseMatches(ts[1..], path[k..])
        {
          LikeIsLoose(ts[1..], path[k..]);
        }
      } else if |path| > 0 {
        LikeIsLoose(ts[1..], path[1..]);
      }
    }
  }

  lemma {:induction false} TokensArePlain(glob: string)
    requires Translatable(glob)
    ensures forall k :: 0 <= k < |Tokens(glob)| ==> Plain(Tokens(glob)[k])
    decreases |glob|
  {
    if |glob| > 0 {
      if glob[0] == '*' && |glob| > 1 && glob[1] == '*' {
        var rest := SkipStars(glob[2..]);
        SkipStarsSuffix(glob[2..]);
        TokensArePlain(if |rest| > 0 && rest[0] == '/' then rest[1..] else rest);
      } else {
        TokensArePlain(glob[1..]);
      }
    }
  }

  lemma {:induction false} SkipStarsSuffix(s: string)
    ensures SkipStars(s) == s[|s| - |SkipStars(s)|..]
  {
    if |s| > 0 && s[0] == '*' {
      SkipStarsSuffix(s[1..]);
    }
  }

  // ---------- the filter on stored paths ----------

  /** `file_path LIKE '%/pattern'`: some suffix of the path, right behind a slash, matches. */
  lemma {:induction false} AnchoredLike(pattern: string, path: string)
    ensures Like("%/" + pattern, path) <==>
            exists k :: 0 <= k < |path| && path[k] == '/' && Like(pattern, path[k + 1..])
  {
    var p := "%/" + pattern;
    assert p[1..] == "/" + pattern && p[1..][1..] == pattern;
    if Like(p, path) {
      var k :| 0 <= k <= |path| && Like(p[1..], path[k..]);
      assert path[k..][1..] == path[k + 1..];
    }
    if k :| 0 <= k < |path| && path[k] == '/' && Like(pattern, path[k + 1..]) {
      assert path[k..][1..] == path[k + 1..];
      assert Like(p[1..], path[k..]);
    }
  }

  lemma {:induction false} AnchoredSuffix(pattern: string, root: string, rel: string)
    requires Like(pattern, rel)
    ensures Like("%/" + pattern, root + "/" + rel)
  {
    var path := root + "/" + rel;
    var k := |root|;
    assert path[k] == '/' && path[k + 1..] == rel;
    AnchoredLike(pattern, path);
  }

  predicate Translatable(glob: string) {
    forall k :: 0 <= k < |glob| ==> !Refused(glob[k])
  }

  /** The whole pattern accepts exactly the loose reading of the glob. */
  lemma {:induction false} PatternIsLoose(glob: string, path: string)
    requires Translatable(glob)
    ensures Like(TranslatedAll(Tokens(glob)), path) <==> LooseMatches(Tokens(glob), path)
  {
    TokensArePlain(glob);
    LikeIsLoose(Tokens(glob), path);
  }

  /** Nothing the glob accepts is filtered out, whatever root it is stored under. */
  lemma {:induction false} GlobSurvivesFilter(glob: string, root: string, rel: string)
    requires Translatable(glob) && GlobMatches(Tokens(glob), rel)
    ensures Like("%/" + TranslatedAll(Tokens(glob)), root + "/" + rel)
  {
    StrictIsLoose(Tokens(glob), rel);
    PatternIsLoose(glob, rel);
    AnchoredSuffix(TranslatedAll(Tokens(glob)), root, rel);
  }

  /** Some part of the path right behind a slash is accepted by the loose glob. */
  ghost predicate LooseSuffix(glob: string, path: string) {
    exists k :: 0 <= k < |path| && path[k] == '/' && LooseMatches(Tokens(glob), path[k + 1..])
  }

  /** Exactly which stored paths pass. */
  lemma {:induction false} FilterMeaning(glob: string, path: string)
    requires Translatable(glob)
    ensures Like("%/" + TranslatedAll(Tokens(glob)), path) <==> LooseSuffix(glob, path)
  {
    var pattern := TranslatedAll(Tokens(glob));
    AnchoredLike(pattern, path);
    forall rel: string
      ensures Like(pattern, rel) <==> LooseMatches(Tokens(glob), rel)
    {
      PatternIsLoose(glob, rel);
    }
  }

  /** `*` should stay within a path component; the filter lets it cross slashes. */
  lemma StarCrossesSlashes(root: string, rel: string)
    requires '/' in rel
    ensures !GlobMatches(Tokens("*"), rel) && Like("%/" + TranslatedAll(Tokens("*")), root + "/" + rel)
  {
    assert Tokens("*") == [Star] && [Star][1..] == [];
    assert rel[..|rel|] == rel;
    assert LooseMatches([], rel[|rel|..]) && LooseMatches([Star], rel);
    PatternIsLoose("*", rel);
    AnchoredSuffix(TranslatedAll(Tokens("*")), root, rel);
  }
}
