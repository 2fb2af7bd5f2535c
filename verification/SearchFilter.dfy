/** The text of the search filter, and what it selects once it is read. */
module SearchFilter {
  import opened Wrappers
  import opened GlobLike
  import opened DeleteFilter

  const TEST_TEXT := "file_type != 1"
  const LANGUAGE_PREFIX := "language IN ("
  const PATH_PREFIX := "file_path LIKE "
  const AND_TEXT := " AND "

  // ---------- what a filter means ----------

  datatype Row = Row(filePath: string, language: string, isTest: bool)

  datatype Conjunct = NotTest | LanguageIn(languages: seq<string>) | PathLike(pattern: string)

  ghost predicate Holds(f: Conjunct, row: Row) {
    match f
    case NotTest => !row.isTest
    case LanguageIn(languages) => row.language in languages
    case PathLike(pattern) => Like(pattern, row.filePath)
  }

  ghost predicate Passes(filters: seq<Conjunct>, row: Row) {
    forall k :: 0 <= k < |filters| ==> Holds(filters[k], row)
  }

  lemma PassesConcat(a: seq<Conjunct>, b: seq<Conjunct>, row: Row)
    ensures Passes(a + b, row) <==> Passes(a, row) && Passes(b, row)
  {
    assert forall k :: 0 <= k < |a| ==> (a + b)[k] == a[k];
    assert forall k :: 0 <= k < |b| ==> (a + b)[|a| + k] == b[k];
  }

  /** What a search asks for. */
  datatype Scope = Scope(languages: seq<string>, glob: Option<string>, includeTests: bool)

  /** A row passes when it is not hidden as a test, has a wanted language, and
    * lies on a path the glob accepts; a refused glob restricts nothing. */
  ghost predicate Wanted(scope: Scope, row: Row) {
    && (scope.includeTests || !row.isTest)
    && (scope.languages != [] ==> row.language in scope.languages)
    && (scope.glob.Some? && Translatable(scope.glob.value) ==> LooseSuffix(scope.glob.value, row.filePath))
  }

  /** The conjuncts meant. */
  function Conjuncts(scope: Scope): seq<Conjunct> {
    (if scope.includeTests then [] else [NotTest])
    + (if scope.languages == [] then [] else [LanguageIn(scope.languages)])
    + (if scope.glob.Some? && Translatable(scope.glob.value)
       then [PathLike("%/" + TranslatedAll(Tokens(scope.glob.value)))] else [])
  }

  lemma ConjunctsMeanWanted(scope: Scope, row: Row)
    ensures Passes(Conjuncts(scope), row) <==> Wanted(scope, row)
  {
    var a: seq<Conjunct> := if scope.includeTests then [] else [NotTest];
    var b: seq<Conjunct> := if scope.languages == [] then [] else [LanguageIn(scope.languages)];
    var c := Conjuncts(scope)[|a| + |b|..];
    assert Conjuncts(scope) == a + b + c;
    PassesConcat(a, b, row);
    PassesConcat(a + b, c, row);
    assert a != [] ==> a[0] == NotTest;
    assert b != [] ==> b[0] == LanguageIn(scope.languages);
    if c != [] {
      FilterMeaning(scope.glob.value, row.filePath);
      assert c[0] == PathLike("%/" + TranslatedAll(Tokens(scope.glob.value)));
    }
  }

  // ---------- the text ----------

  function Joined(parts: seq<string>, sep: string): string {
    if |parts| == 0 then ""
    else if |parts| == 1 then parts[0]
    else parts[0] + (sep + Joined(parts[1..], sep))
  }

  /** A name between quotes, as it is: quotes inside it are not doubled. */
  function Pasted(names: seq<string>): seq<string> {
    seq(|names|, k requires 0 <= k < |names| => "'" + (names[k] + "'"))
  }

  function ConjunctText(f: Conjunct): string {
    match f
    case NotTest => TEST_TEXT
    case LanguageIn(languages) => LANGUAGE_PREFIX + (Joined(Pasted(languages), ",") + ")")
    case PathLike(pattern) => PATH_PREFIX + ("'" + (pattern + "'"))
  }

  function Texts(fs: seq<Conjunct>): seq<string> {
    seq(|fs|, k requires 0 <= k < |fs| => ConjunctText(fs[k]))
  }

  function FilterText(fs: seq<Conjunct>): string {
    Joined(Texts(fs), AND_TEXT)
  }

  // ---------- reading the text ----------

  lemma {:induction false} ReadQuotedShrinks(s: string)
    requires ReadQuoted(s).Some?
    ensures |ReadQuoted(s).value.1| < |s|
  {
    if s[0] != '\'' {
      ReadQuotedShrinks(s[1..]);
    } else if |s| > 1 && s[1] == '\'' {
      ReadQuotedShrinks(s[2..]);
    }
  }

  /** A list of literals up to its closing parenthesis, and the text behind it. */
  function ReadLanguages(s: string): (r: Option<(seq<string>, string)>)
    ensures r.Some? ==> |r.value.1| < |s|
    decreases |s|
  {
    if |s| == 0 || s[0] != '\'' then None
    else
      match ReadQuoted(s[1..])
      case None => None
      case Some((v, rest)) =>
        ReadQuotedShrinks(s[1..]);
        if |rest| > 0 && rest[0] == ')' then Some(([v], rest[1..]))
        else if |rest| > 0 && rest[0] == ',' then
          match ReadLanguages(rest[1..])
          case None => None
          case Some((vs, rest')) => Some(([v] + vs, rest'))
        else None
  }

  function ReadConjunct(s: string): (r: Option<(Conjunct, string)>)
    ensures r.Some? ==> |r.value.1| < |s|
  {
    if TEST_TEXT <= s then Some((NotTest, s[|TEST_TEXT|..]))
    else if LANGUAGE_PREFIX <= s then
      match ReadLanguages(s[|LANGUAGE_PREFIX|..])
      case None => None
      case Some((languages, rest)) => Some((LanguageIn(languages), rest))
    else if PATH_PREFIX <= s && |s| > |PATH_PREFIX| && s[|PATH_PREFIX|] == '\'' then
      match ReadQuoted(s[|PATH_PREFIX| + 1..])
      case None => None
      case Some((pattern, rest)) =>
        ReadQuotedShrinks(s[|PATH_PREFIX| + 1..]);
        Some((PathLike(pattern), rest))
    else None
  }

  function ReadFilter(s: string): Option<seq<Conjunct>>
    decreases |s|
  {
    match ReadConjunct(s)
    case None => None
    case Some((f, rest)) =>
      if rest == "" then Some([f])
      else if AND_TEXT <= rest then
        match ReadFilter(rest[|AND_TEXT|..])
        case None => None
        case Some(fs) => Some([f] + fs)
      else None
  }

  // ---------- names without quotes read back ----------

  predicate Quoteless(s: string) {
    '\'' !in s
  }

  lemma {:induction false} QuotelessIsVerbatim(s: string)
    requires Quoteless(s)
    ensures Escaped(s) == s
  {
    if |s| > 0 {
      QuotelessIsVerbatim(s[..|s| - 1]);
    }
  }

  lemma ReadVerbatim(s: string, rest: string)
    requires Quoteless(s) && (|rest| == 0 || rest[0] != '\'')
    ensures ReadQuoted(s + ("'" + rest)) == Some((s, rest))
  {
    QuotelessIsVerbatim(s);
    ReadEscaped(s, rest);
  }

  predicate AllQuoteless(names: seq<string>) {
    forall k :: 0 <= k < |names| ==> Quoteless(names[k])
  }

  lemma {:induction false} LanguagesReadBack(names: seq<string>, rest: string)
    requires 0 < |names| && AllQuoteless(names)
    ensures ReadLanguages(Joined(Pasted(names), ",") + (")" + rest)) == Some((names, rest))
    decreases |names|
  {
    var s := Joined(Pasted(names), ",") + (")" + rest);
    var v := names[0];
    if |names| == 1 {
      var tail := ")" + rest;
      ReadVerbatim(v, tail);
      assert s[1..] == v + ("'" + tail) && tail[1..] == rest && names == [v];
    } else {
      assert Pasted(names)[1..] == Pasted(names[1..]);
      var more := Joined(Pasted(names[1..]), ",") + (")" + rest);
      var tail := "," + more;
      LanguagesReadBack(names[1..], rest);
      ReadVerbatim(v, tail);
      assert s[1..] == v + ("'" + tail) && tail[1..] == more && names == [v] + names[1..];
    }
  }

  predicate QuotelessConjunct(f: Conjunct) {
    match f
    case NotTest => true
    case LanguageIn(languages) => languages != [] && AllQuoteless(languages)
    case PathLike(pattern) => Quoteless(pattern)
  }

  lemma LanguageInReadsBack(languages: seq<string>, rest: string)
    requires languages != [] && AllQuoteless(languages)
    ensures ReadConjunct(ConjunctText(LanguageIn(languages)) + rest) == Some((LanguageIn(languages), rest))
  {
    var s := ConjunctText(LanguageIn(languages)) + rest;
    LanguagesReadBack(languages, rest);
    assert s[0] == 'l';
    assert s[|LANGUAGE_PREFIX|..] == Joined(Pasted(languages), ",") + (")" + rest);
  }

  lemma PathLikeReadsBack(pattern: string, rest: string)
    requires Quoteless(pattern) && (|rest| == 0 || rest[0] != '\'')
    ensures ReadConjunct(ConjunctText(PathLike(pattern)) + rest) == Some((PathLike(pattern), rest))
  {
    var s := ConjunctText(PathLike(pattern)) + rest;
    ReadVerbatim(pattern, rest);
    assert s[5] == 'p';
    assert s[|PATH_PREFIX| + 1..] == pattern + ("'" + rest);
  }

  lemma ConjunctReadsBack(f: Conjunct, rest: string)
    requires QuotelessConjunct(f) && (|rest| == 0 || rest[0] != '\'')
    ensures ReadConjunct(ConjunctText(f) + rest) == Some((f, rest))
  {
    match f
    case NotTest => assert (ConjunctText(f) + rest)[|TEST_TEXT|..] == rest;
    case LanguageIn(languages) => LanguageInReadsBack(languages, rest);
    case PathLike(pattern) => PathLikeReadsBack(pattern, rest);
  }

  predicate QuotelessAll(fs: seq<Conjunct>) {
    forall k :: 0 <= k < |fs| ==> QuotelessConjunct(fs[k])
  }

  lemma {:induction false} QuotelessReadsBack(fs: seq<Conjunct>)
    requires 0 < |fs| && QuotelessAll(fs)
    ensures ReadFilter(FilterText(fs)) == Some(fs)
    decreases |fs|
  {
    var first := ConjunctText(fs[0]);
    if |fs| == 1 {
      ConjunctReadsBack(fs[0], "");
      assert first + "" == first && fs == [fs[0]];
    } else {
      assert Texts(fs)[1..] == Texts(fs[1..]);
      var rest := AND_TEXT + FilterText(fs[1..]);
      QuotelessReadsBack(fs[1..]);
      ConjunctReadsBack(fs[0], rest);
      assert rest[|AND_TEXT|..] == FilterText(fs[1..]) && fs == [fs[0]] + fs[1..];
    }
  }

  // ---------- names with quotes do not ----------

  function Quotes(s: string): nat {
    if |s| == 0 then 0 else (if s[0] == '\'' then 1 else 0) + Quotes(s[1..])
  }

  lemma {:induction false} QuotesConcat(a: string, b: string)
    ensures Quotes(a + b) == Quotes(a) + Quotes(b)
  {
    if |a| == 0 {
      assert a + b == b;
    } else {
      assert (a + b)[1..] == a[1..] + b;
      QuotesConcat(a[1..], b);
    }
  }

  lemma {:induction false} NoQuotes(s: string)
    ensures Quotes(s) == 0 <==> Quoteless(s)
  {
    if |s| > 0 {
      NoQuotes(s[1..]);
      assert s == [s[0]] + s[1..];
    }
  }

  /** The quotes of a text that starts with `prefix`. */
  lemma QuotesBehind(prefix: string, s: string)
    requires prefix <= s
    ensures Quotes(s) == Quotes(prefix) + Quotes(s[|prefix|..])
  {
    QuotesConcat(prefix, s[|prefix|..]);
    assert s == prefix + s[|prefix|..];
  }

  lemma QuotesBehindQuote(prefix: string, s: string)
    requires prefix <= s && |s| > |prefix| && s[|prefix|] == '\''
    ensures Quotes(s) == Quotes(prefix) + 1 + Quotes(s[|prefix| + 1..])
  {
    QuotesBehind(prefix, s);
    assert s[|prefix|..][1..] == s[|prefix| + 1..];
  }

  /** Reading a literal takes two quotes for each one in its value, and the closing one. */
  lemma {:induction false} ReadQuotedTakes(s: string)
    requires ReadQuoted(s).Some?
    ensures var (v, rest) := ReadQuoted(s).value; Quotes(s) == 2 * Quotes(v) + 1 + Quotes(rest)
    decreases |s|
  {
    if s[0] != '\'' {
      ReadQuotedTakes(s[1..]);
      var (v, rest) := ReadQuoted(s[1..]).value;
      assert ([s[0]] + v)[1..] == v;
    } else if |s| > 1 && s[1] == '\'' {
      ReadQuotedTakes(s[2..]);
      var (v, rest) := ReadQuoted(s[2..]).value;
      assert (['\''] + v)[1..] == v && s[1..][1..] == s[2..];
    }
  }

  /** The quotes it takes to write names so that they read back. */
  function QuotesNeeded(names: seq<string>): nat {
    if |names| == 0 then 0 else 2 * Quotes(names[0]) + 2 + QuotesNeeded(names[1..])
  }

  /** The quotes that are written. */
  function QuotesPasted(names: seq<string>): nat {
    if |names| == 0 then 0 else Quotes(names[0]) + 2 + QuotesPasted(names[1..])
  }

  lemma {:induction false} EnoughQuotes(names: seq<string>)
    ensures QuotesPasted(names) <= QuotesNeeded(names)
    ensures QuotesPasted(names) == QuotesNeeded(names) <==> AllQuoteless(names)
  {
    if |names| > 0 {
      EnoughQuotes(names[1..]);
      NoQuotes(names[0]);
      assert forall k :: 0 <= k < |names[1..]| ==> names[1..][k] == names[k + 1];
      assert names == [names[0]] + names[1..];
    }
  }

  lemma {:induction false} ReadLanguagesTakes(s: string)
    requires ReadLanguages(s).Some?
    ensures var (names, rest) := ReadLanguages(s).value; Quotes(s) == QuotesNeeded(names) + Quotes(rest)
    decreases |s|
  {
    ReadQuotedShrinks(s[1..]);
    ReadQuotedTakes(s[1..]);
    var (v, rest) := ReadQuoted(s[1..]).value;
    assert [v][1..] == [];
    if rest[0] == ',' {
      ReadLanguagesTakes(rest[1..]);
      var (vs, rest') := ReadLanguages(rest[1..]).value;
      assert ([v] + vs)[1..] == vs;
    }
  }

  lemma {:induction false} PastedQuotes(names: seq<string>)
    ensures Quotes(Joined(Pasted(names), ",")) == QuotesPasted(names)
  {
    if |names| > 0 {
      var first := "'" + (names[0] + "'");
      QuotesConcat("'", names[0] + "'");
      QuotesConcat(names[0], "'");
      assert Quotes("'") == 1;
      if |names| > 1 {
        PastedQuotes(names[1..]);
        assert Pasted(names)[1..] == Pasted(names[1..]);
        QuotesConcat(",", Joined(Pasted(names[1..]), ","));
        QuotesConcat(first, "," + Joined(Pasted(names[1..]), ","));
        assert Quotes(",") == 0;
      } else {
        assert names[1..] == [];
      }
    }
  }

  function Needed(f: Conjunct): nat {
    match f
    case NotTest => 0
    case LanguageIn(languages) => QuotesNeeded(languages)
    case PathLike(pattern) => 2 * Quotes(pattern) + 2
  }

  function Written(f: Conjunct): nat {
    match f
    case NotTest => 0
    case LanguageIn(languages) => QuotesPasted(languages)
    case PathLike(pattern) => Quotes(pattern) + 2
  }

  lemma TestTextQuotes()
    ensures Quotes(TEST_TEXT) == 0
  {
    NoQuotes(TEST_TEXT);
  }

  lemma LanguagePrefixQuotes()
    ensures Quotes(LANGUAGE_PREFIX) == 0
  {
    NoQuotes(LANGUAGE_PREFIX);
  }

  lemma PathPrefixQuotes()
    ensures Quotes(PATH_PREFIX) == 0
  {
    NoQuotes("file_path");
    NoQuotes(" LIKE ");
    QuotesConcat("file_path", " LIKE ");
    assert PATH_PREFIX == "file_path" + " LIKE ";
  }

  lemma AndTextQuotes()
    ensures Quotes(AND_TEXT) == 0
  {
    NoQuotes(AND_TEXT);
  }

  lemma ReadConjunctTakes(s: string)
    requires ReadConjunct(s).Some?
    ensures var (f, rest) := ReadConjunct(s).value; Quotes(s) == Needed(f) + Quotes(rest)
  {
    if TEST_TEXT <= s {
      TestTextQuotes();
      QuotesBehind(TEST_TEXT, s);
    } else if LANGUAGE_PREFIX <= s {
      LanguagePrefixQuotes();
      QuotesBehind(LANGUAGE_PREFIX, s);
      ReadLanguagesTakes(s[|LANGUAGE_PREFIX|..]);
    } else {
      PathPrefixQuotes();
      QuotesBehindQuote(PATH_PREFIX, s);
      ReadQuotedTakes(s[|PATH_PREFIX| + 1..]);
    }
  }

  lemma QuotesAround(before: string, s: string, after: string)
    requires |after| == 1
    ensures Quotes(before + (s + after)) == Quotes(before) + Quotes(s) + if after[0] == '\'' then 1 else 0
  {
    QuotesConcat(s, after);
    QuotesConcat(before, s + after);
    assert after[1..] == "";
  }

  lemma ConjunctTextQuotes(f: Conjunct)
    ensures Quotes(ConjunctText(f)) == Written(f)
  {
    match f
    case NotTest =>
      TestTextQuotes();
    case LanguageIn(languages) =>
      LanguagePrefixQuotes();
      PastedQuotes(languages);
      QuotesAround(LANGUAGE_PREFIX, Joined(Pasted(languages), ","), ")");
    case PathLike(pattern) =>
      PathPrefixQuotes();
      QuotesAround("'", pattern, "'");
      QuotesConcat(PATH_PREFIX, "'" + (pattern + "'"));
      assert Quotes("'") == 1;
  }

  lemma WrittenIsNeeded(f: Conjunct)
    ensures Written(f) <= Needed(f)
    ensures Written(f) == Needed(f) && (f.LanguageIn? ==> f.languages != []) <==> QuotelessConjunct(f)
  {
    match f
    case NotTest =>
    case LanguageIn(languages) => EnoughQuotes(languages);
    case PathLike(pattern) => NoQuotes(pattern);
  }

  function NeededAll(fs: seq<Conjunct>): nat {
    if |fs| == 0 then 0 else Needed(fs[0]) + NeededAll(fs[1..])
  }

  function WrittenAll(fs: seq<Conjunct>): nat {
    if |fs| == 0 then 0 else Written(fs[0]) + WrittenAll(fs[1..])
  }

  lemma {:induction false} ReadFilterTakes(s: string)
    requires ReadFilter(s).Some?
    ensures Quotes(s) == NeededAll(ReadFilter(s).value)
    decreases |s|
  {
    ReadConjunctTakes(s);
    var (f, rest) := ReadConjunct(s).value;
    assert [f][1..] == [];
    if rest != "" {
      var more := rest[|AND_TEXT|..];
      AndTextQuotes();
      QuotesBehind(AND_TEXT, rest);
      ReadFilterTakes(more);
      assert ([f] + ReadFilter(more).value)[1..] == ReadFilter(more).value;
    }
  }

  lemma FilterTextCons(fs: seq<Conjunct>)
    requires 1 < |fs|
    ensures FilterText(fs) == ConjunctText(fs[0]) + (AND_TEXT + FilterText(fs[1..]))
  {
    assert Texts(fs)[1..] == Texts(fs[1..]);
  }

  lemma JoinedQuotes(a: string, sep: string, b: string)
    requires Quotes(sep) == 0
    ensures Quotes(a + (sep + b)) == Quotes(a) + Quotes(b)
  {
    QuotesConcat(sep, b);
    QuotesConcat(a, sep + b);
  }

  lemma {:induction false} FilterTextQuotes(fs: seq<Conjunct>)
    ensures Quotes(FilterText(fs)) == WrittenAll(fs)
  {
    if |fs| > 0 {
      ConjunctTextQuotes(fs[0]);
      if |fs| > 1 {
        FilterTextQuotes(fs[1..]);
        AndTextQuotes();
        FilterTextCons(fs);
        JoinedQuotes(ConjunctText(fs[0]), AND_TEXT, FilterText(fs[1..]));
      } else {
        assert fs[1..] == [];
      }
    }
  }

  lemma {:induction false} AllNeeded(fs: seq<Conjunct>)
    requires WrittenAll(fs) == NeededAll(fs)
    requires forall k :: 0 <= k < |fs| && fs[k].LanguageIn? ==> fs[k].languages != []
    ensures QuotelessAll(fs)
  {
    if |fs| > 0 {
      AllWrittenIsNeeded(fs[1..]);
      WrittenIsNeeded(fs[0]);
      AllNeeded(fs[1..]);
      assert fs == [fs[0]] + fs[1..];
    }
  }

  lemma {:induction false} AllWrittenIsNeeded(fs: seq<Conjunct>)
    ensures WrittenAll(fs) <= NeededAll(fs)
  {
    if |fs| > 0 {
      WrittenIsNeeded(fs[0]);
      AllWrittenIsNeeded(fs[1..]);
    }
  }

  // ---------- main results ----------

  lemma {:induction false} PatternIsQuoteless(glob: string)
    requires Translatable(glob)
    ensures Quoteless("%/" + TranslatedAll(Tokens(glob)))
  {
    var p := "%/" + TranslatedAll(Tokens(glob));
    TokensArePlain(glob);
    forall k | 0 <= k < |p|
      ensures p[k] != '\''
    {
      assert k >= 2 ==> Plain(Tokens(glob)[k - 2]);
    }
  }

  /** The path pattern, pasted between quotes, reads back as itself. */
  lemma PatternReadsBack(glob: string, rest: string)
    requires Translatable(glob) && (|rest| == 0 || rest[0] != '\'')
    ensures var pattern := "%/" + TranslatedAll(Tokens(glob));
      ReadQuoted(pattern + ("'" + rest)) == Some((pattern, rest))
  {
    PatternIsQuoteless(glob);
    ReadVerbatim("%/" + TranslatedAll(Tokens(glob)), rest);
  }

  /** Any text of conjuncts reads back exactly if no name and no pattern in it
    * holds a quote. */
  lemma ConjunctsReadBack(fs: seq<Conjunct>)
    requires 0 < |fs| && forall k :: 0 <= k < |fs| && fs[k].LanguageIn? ==> fs[k].languages != []
    ensures ReadFilter(FilterText(fs)) == Some(fs) <==> QuotelessAll(fs)
  {
    if QuotelessAll(fs) {
      QuotelessReadsBack(fs);
    } else if ReadFilter(FilterText(fs)) == Some(fs) {
      ReadFilterTakes(FilterText(fs));
      FilterTextQuotes(fs);
      AllNeeded(fs);
    }
  }

  lemma ScopeIsQuoteless(scope: Scope)
    ensures QuotelessAll(Conjuncts(scope)) <==> AllQuoteless(scope.languages)
  {
    var fs := Conjuncts(scope);
    if scope.glob.Some? && Translatable(scope.glob.value) {
      PatternIsQuoteless(scope.glob.value);
    }
    if scope.languages != [] {
      assert fs[if scope.includeTests then 0 else 1] == LanguageIn(scope.languages);
    }
  }

  /** The text of a search reads back as the conjuncts meant exactly if no
    * requested language holds a quote; the path pattern never does. */
  lemma TextReadsBack(scope: Scope)
    requires Conjuncts(scope) != []
    ensures ReadFilter(FilterText(Conjuncts(scope))) == Some(Conjuncts(scope)) <==> AllQuoteless(scope.languages)
  {
    ScopeIsQuoteless(scope);
    ConjunctsReadBack(Conjuncts(scope));
  }

  /** The rows a filter text selects once it is read; no text selects all. */
  ghost predicate Selects(text: Option<string>, row: Row) {
    text.Some? ==> ReadFilter(text.value).Some? && Passes(ReadFilter(text.value).value, row)
  }

  method BuildLangPathFilter(languages: Option<seq<string>>, pathGlob: Option<string>, includeTests: bool)
    returns (text: Option<string>)
    ensures var scope := Scope(if languages.Some? then languages.value else [], pathGlob, includeTests);
      && text == (if Conjuncts(scope) == [] then None else Some(FilterText(Conjuncts(scope))))
      && (AllQuoteless(scope.languages) ==> forall row :: Selects(text, row) <==> Wanted(scope, row))
  {
    ghost var scope := Scope(if languages.Some? then languages.value else [], pathGlob, includeTests);
    var filters: seq<string> := [];
    if !includeTests {
      filters := filters + [TEST_TEXT];
    }
    if languages.Some? && languages.value != [] {
      var list := Joined(Pasted(languages.value), ",");
      filters := filters + [LANGUAGE_PREFIX + (list + ")")];
    }
    if pathGlob.Some? {
      var pattern := GlobToLike(pathGlob.value);
      if pattern.Some? {
        filters := filters + [PATH_PREFIX + ("'" + ("%/" + pattern.value + "'"))];
      }
    }
    assert filters == Texts(Conjuncts(scope));
    text := if filters == [] then None else Some(Joined(filters, AND_TEXT));
    if AllQuoteless(scope.languages) {
      if text.Some? {
        TextReadsBack(scope);
      }
      forall row
        ensures Selects(text, row) <==> Wanted(scope, row)
      {
        ConjunctsMeanWanted(scope, row);
      }
    }
  }

  /** A name with a quote inside, such as o'caml, closes its literal early: the
    * text cannot be read. */
  lemma ApostropheBreaksTheText(a: string, b: string)
    requires Quoteless(a) && 0 < |b| && b[0] !in {'\'', ',', ')'}
    ensures ReadFilter(FilterText(Conjuncts(Scope([a + ("'" + b)], None, true)))).None?
  {
    var name := a + ("'" + b);
    assert Conjuncts(Scope([name], None, true)) == [LanguageIn([name])];
    var tail := b + ("'" + ")");
    var list := Joined(Pasted([name]), ",") + ")";
    ReadVerbatim(a, tail);
    assert list[1..] == a + ("'" + tail);
    var s := FilterText([LanguageIn([name])]);
    assert s == LANGUAGE_PREFIX + list && s[0] == 'l';
    assert s[|LANGUAGE_PREFIX|..] == list;
  }

  /** A name that spells the end of one literal and the start of another reads as
    * two names. */
  lemma QuotesReadAsTwoNames(a: string, b: string)
    requires Quoteless(a) && Quoteless(b)
    ensures ReadFilter(FilterText(Conjuncts(Scope([a + ("','" + b)], None, true)))) == Some([LanguageIn([a, b])])
  {
    var name := a + ("','" + b);
    assert Conjuncts(Scope([name], None, true)) == [LanguageIn([name])];
    assert Pasted([a, b])[1..] == Pasted([b]);
    assert Joined(Pasted([name]), ",") == Joined(Pasted([a, b]), ",");
    assert FilterText([LanguageIn([name])]) == FilterText([LanguageIn([a, b])]);
    QuotelessReadsBack([LanguageIn([a, b])]);
  }
}
