/** The project index: dense symbols, name resolution, and both edge groupings. */
module SymbolIndex {
  import opened Wrappers
  import opened Types
  import Walker
  import WalkerLaws

  /** A parsed file.  `stem` is its base name without a source suffix, `dirs` its
    * directory components without source roots, and `crate` the crate and module
    * path a Rust file's location gives it. */
  datatype FileEntry = FileEntry(
    stem: string, dirs: seq<string>, crate: Option<(string, seq<string>)>, isRust: bool, imports: map<string, string>)

  const SEP := "::"

  function JoinSep(parts: seq<string>): string {
    if |parts| == 0 then ""
    else if |parts| == 1 then parts[0]
    else parts[0] + SEP + JoinSep(parts[1..])
  }

  /** `name` contains the path separator. */
  predicate HasSep(name: string) {
    exists i :: 0 <= i < |name| && SepAt(name, i)
  }

  predicate SepAt(s: string, i: nat) {
    i + 2 <= |s| && s[i..i + 2] == SEP
  }

  lemma HasSepMiddle(a: string, b: string)
    ensures HasSep(a + SEP + b)
  {
    var s := a + SEP + b;
    assert SepAt(s, |a|);
  }

  lemma {:induction false} JoinHasSep(parts: seq<string>)
    requires |parts| >= 2
    ensures HasSep(JoinSep(parts))
  {
    HasSepMiddle(parts[0], JoinSep(parts[1..]));
  }

  /** Parts joined by `::`, in order. */
  lemma {:induction false} JoinSepSplits(a: seq<string>, b: seq<string>)
    requires 0 < |a| && 0 < |b|
    ensures JoinSep(a + b) == JoinSep(a) + "::" + JoinSep(b)
    ensures |a| == 1 ==> JoinSep(a) == a[0]
  {
    assert (a + b)[1..] == a[1..] + b;
    if 1 < |a| {
      JoinSepSplits(a[1..], b);
      var x, y, z := a[0] + SEP, JoinSep(a[1..]), "::" + JoinSep(b);
      assert x + (y + z) == x + y + z;
    }
  }

  // ---------- aliases ----------

  function Normalize(s: string): (r: string)
    ensures |r| == |s| && forall i :: 0 <= i < |s| ==> r[i] == if s[i] == '-' then '_' else s[i]
  {
    seq(|s|, i requires 0 <= i < |s| => if s[i] == '-' then '_' else s[i])
  }

  predicate IsNonModule(stem: string) {
    stem in {"lib", "main", "mod", "index"}
  }

  function BasenameAlias(sym: Symbol, f: FileEntry): seq<string> {
    if f.stem != sym.name then [f.stem + SEP + sym.name] else []
  }

  function DirectoryAliases(sym: Symbol, f: FileEntry): seq<string> {
    if |f.dirs| == 0 then []
    else if IsNonModule(f.stem) then [JoinSep(f.dirs) + SEP + sym.qualified]
    else [JoinSep(f.dirs) + SEP + sym.qualified, JoinSep(f.dirs) + SEP + f.stem + SEP + sym.qualified]
  }

  function CrateAlias(sym: Symbol, f: FileEntry): seq<string> {
    if !f.isRust || f.crate.None? then []
    else
      var (crate, modules) := f.crate.value;
      var file := if |modules| == 0 && f.stem !in {"lib", "main", "mod"} then [Normalize(f.stem)] else [];
      [JoinSep([crate] + modules + file + [sym.qualified])]
  }

  function Aliases(sym: Symbol, f: FileEntry): seq<string> {
    BasenameAlias(sym, f) + DirectoryAliases(sym, f) + CrateAlias(sym, f)
  }

  lemma AliasesHaveSep(sym: Symbol, f: FileEntry, k: string)
    requires k in Aliases(sym, f)
    ensures HasSep(k)
  {
    HasSepMiddle(f.stem, sym.name);
    HasSepMiddle(JoinSep(f.dirs), sym.qualified);
    HasSepMiddle(JoinSep(f.dirs) + SEP + f.stem, sym.qualified);
    if f.crate.Some? {
      var (crate, modules) := f.crate.value;
      var file := if |modules| == 0 && f.stem !in {"lib", "main", "mod"} then [Normalize(f.stem)] else [];
      JoinHasSep([crate] + modules + file + [sym.qualified]);
    }
  }

  /** The keys besides the symbol's own names: its file, its directories with and
    * without the file, and its crate path. */
  lemma AliasesAre(sym: Symbol, f: FileEntry, k: string)
    ensures k in Aliases(sym, f) <==>
      || (f.stem != sym.name && k == f.stem + "::" + sym.name)
      || (0 < |f.dirs| && k == JoinSep(f.dirs + [sym.qualified]))
      || (0 < |f.dirs| && f.stem !in {"lib", "main", "mod", "index"} && k == JoinSep(f.dirs + [f.stem, sym.qualified]))
      || (f.isRust && f.crate.Some? && k == CratePath(sym, f))
  {
    if 0 < |f.dirs| {
      JoinSepSplits(f.dirs, [sym.qualified]);
      JoinSepSplits(f.dirs, [f.stem, sym.qualified]);
      JoinSepSplits([f.stem], [sym.qualified]);
      assert [f.stem] + [sym.qualified] == [f.stem, sym.qualified];
      var x := JoinSep(f.dirs);
      assert x + "::" + (f.stem + "::" + sym.qualified) == x + SEP + f.stem + SEP + sym.qualified;
    }
    if f.crate.Some? {
      CratePathJoins(sym, f);
    }
  }

  /** The path of a symbol in its crate: the modules of its file's location, or else
    * the file itself unless it is a root, and the qualified name. */
  function CratePath(sym: Symbol, f: FileEntry): string
    requires f.crate.Some?
  {
    var (crate, modules) := f.crate.value;
    if |modules| > 0 then crate + "::" + JoinSep(modules + [sym.qualified])
    else if f.stem in {"lib", "main", "mod"} then crate + "::" + sym.qualified
    else crate + "::" + Normalize(f.stem) + "::" + sym.qualified
  }

  lemma CratePathJoins(sym: Symbol, f: FileEntry)
    requires f.crate.Some?
    ensures f.isRust ==> CrateAlias(sym, f) == [CratePath(sym, f)]
  {
    var (crate, modules) := f.crate.value;
    var q := [sym.qualified];
    JoinSepSplits([crate], q);
    if |modules| > 0 {
      JoinSepSplits([crate], modules + q);
      assert [crate] + modules + [] + q == [crate] + (modules + q);
    } else {
      var n := Normalize(f.stem);
      JoinSepSplits([crate], [n] + q);
      JoinSepSplits([n], q);
      assert [crate] + modules + [n] + q == [crate] + ([n] + q);
      assert [crate] + modules + [] + q == [crate] + q;
      assert crate + "::" + (n + "::" + sym.qualified) == crate + "::" + n + "::" + sym.qualified;
    }
  }

  // ---------- the qualified map ----------

  function NameCount(symbols: seq<Symbol>, name: string): nat {
    if |symbols| == 0 then 0
    else NameCount(symbols[..|symbols| - 1], name) + if symbols[|symbols| - 1].name == name then 1 else 0
  }

  predicate Unique(symbols: seq<Symbol>, name: string) {
    NameCount(symbols, name) == 1
  }

  /** Symbol i has the name, and no other has. */
  predicate OnlyAt(symbols: seq<Symbol>, name: string, i: nat) {
    i < |symbols| && symbols[i].name == name && forall j :: 0 <= j < |symbols| && j != i ==> symbols[j].name != name
  }

  lemma {:induction false} NoneNamed(symbols: seq<Symbol>, name: string)
    ensures NameCount(symbols, name) == 0 <==> forall j :: 0 <= j < |symbols| ==> symbols[j].name != name
  {
    if 0 < |symbols| {
      NoneNamed(symbols[..|symbols| - 1], name);
      assert forall j :: 0 <= j < |symbols| - 1 ==> symbols[j] == symbols[..|symbols| - 1][j];
    }
  }

  lemma {:induction false} OnlyIsUnique(symbols: seq<Symbol>, name: string, i: nat)
    requires OnlyAt(symbols, name, i)
    ensures Unique(symbols, name)
  {
    var n := |symbols| - 1;
    if i < n {
      assert OnlyAt(symbols[..n], name, i);
      OnlyIsUnique(symbols[..n], name, i);
    } else {
      NoneNamed(symbols[..n], name);
    }
  }

  lemma {:induction false} UniqueIsOnly(symbols: seq<Symbol>, name: string) returns (i: nat)
    requires Unique(symbols, name)
    ensures OnlyAt(symbols, name, i)
  {
    var n := |symbols| - 1;
    if symbols[n].name == name {
      i := n;
      NoneNamed(symbols[..n], name);
      assert forall j :: 0 <= j < n ==> symbols[j] == symbols[..n][j];
    } else {
      i := UniqueIsOnly(symbols[..n], name);
      assert forall j :: 0 <= j < n ==> symbols[j] == symbols[..n][j];
    }
  }

  /** Unique means that one symbol has the name and no other does. */
  lemma UniqueIsOne(symbols: seq<Symbol>, name: string)
    ensures Unique(symbols, name) <==> exists i :: OnlyAt(symbols, name, i)
  {
    if Unique(symbols, name) {
      var i := UniqueIsOnly(symbols, name);
    }
    if i :| OnlyAt(symbols, name, i) {
      OnlyIsUnique(symbols, name, i);
    }
  }

  /** Symbol `sym` may be found under key `k`. */
  predicate Claims(symbols: seq<Symbol>, files: seq<FileEntry>, sym: Symbol, k: string) {
    || (k == sym.qualified && (sym.qualified != sym.name || Unique(symbols, sym.name)))
    || (sym.fileIdx < |files| && k in Aliases(sym, files[sym.fileIdx]))
    || (k == sym.name && Unique(symbols, sym.name))
  }

  ghost predicate DenseIds(symbols: seq<Symbol>) {
    forall i :: 0 <= i < |symbols| ==> symbols[i].id == i
  }

  /** Key `k` maps to the first of the first n symbols that claims it, if any does. */
  ghost predicate FirstClaim(symbols: seq<Symbol>, files: seq<FileEntry>, n: nat, m: map<string, nat>, k: string)
    requires n <= |symbols|
  {
    if k in m then
      m[k] < n && Claims(symbols, files, symbols[m[k]], k)
      && forall i :: 0 <= i < m[k] ==> !Claims(symbols, files, symbols[i], k)
    else forall i :: 0 <= i < n ==> !Claims(symbols, files, symbols[i], k)
  }

  method CountNames(symbols: seq<Symbol>) returns (counts: map<string, nat>)
    ensures forall name :: NameCount(symbols, name) == if name in counts then counts[name] else 0
  {
    counts := map[];
    for i := 0 to |symbols|
      invariant forall name :: NameCount(symbols[..i], name) == if name in counts then counts[name] else 0
    {
      assert symbols[..i + 1][..i] == symbols[..i];
      var name := symbols[i].name;
      counts := counts[name := (if name in counts then counts[name] else 0) + 1];
    }
    assert symbols[..|symbols|] == symbols;
  }

  function OrInsert(m: map<string, nat>, k: string, id: nat): map<string, nat> {
    if k in m then m else m[k := id]
  }

  ghost predicate FirstClaims(symbols: seq<Symbol>, files: seq<FileEntry>, n: nat, m: map<string, nat>)
    requires n <= |symbols|
  {
    forall k {:trigger FirstClaim(symbols, files, n, m, k)} :: FirstClaim(symbols, files, n, m, k)
  }

  method EnterKeys(m0: map<string, nat>, keys: seq<string>, id: nat) returns (m: map<string, nat>)
    ensures forall k :: k in m <==> (k in m0 || k in keys)
    ensures forall k :: k in m ==> m[k] == if k in m0 then m0[k] else id
  {
    m := m0;
    for j := 0 to |keys|
      invariant forall k :: k in m <==> (k in m0 || k in keys[..j])
      invariant forall k :: k in m ==> m[k] == if k in m0 then m0[k] else id
    {
      assert keys[..j + 1] == keys[..j] + [keys[j]];
      m := OrInsert(m, keys[j], id);
    }
    assert keys[..|keys|] == keys;
  }

  /** Every key of one symbol, entered unless an earlier symbol holds it. */
  method EnterSymbol(symbols: seq<Symbol>, files: seq<FileEntry>, n: nat, isUnique: bool, m0: map<string, nat>)
    returns (m: map<string, nat>)
    requires DenseIds(symbols) && n < |symbols| && isUnique == Unique(symbols, symbols[n].name)
    requires FirstClaims(symbols, files, n, m0)
    ensures FirstClaims(symbols, files, n + 1, m)
  {
    var sym := symbols[n];
    m := m0;
    if sym.qualified != sym.name || isUnique {
      m := EnterKeys(m, [sym.qualified], sym.id);
    }
    if sym.fileIdx < |files| {
      m := EnterKeys(m, Aliases(sym, files[sym.fileIdx]), sym.id);
    }
    if isUnique {
      m := EnterKeys(m, [sym.name], sym.id);
    }
    ClaimsExtend(symbols, files, n, m0, m);
  }

  lemma ClaimsExtend(symbols: seq<Symbol>, files: seq<FileEntry>, n: nat, m0: map<string, nat>, m: map<string, nat>)
    requires n < |symbols| && FirstClaims(symbols, files, n, m0)
    requires forall k :: k in m <==> (k in m0 || Claims(symbols, files, symbols[n], k))
    requires forall k :: k in m ==> m[k] == if k in m0 then m0[k] else n
    ensures FirstClaims(symbols, files, n + 1, m)
  {
    forall k {:trigger FirstClaim(symbols, files, n + 1, m, k)}
      ensures FirstClaim(symbols, files, n + 1, m, k)
    {
      assert FirstClaim(symbols, files, n, m0, k);
    }
  }

  method BuildQualifiedMap(symbols: seq<Symbol>, files: seq<FileEntry>) returns (m: map<string, nat>)
    requires DenseIds(symbols)
    ensures FirstClaims(symbols, files, |symbols|, m)
  {
    var counts := CountNames(symbols);
    m := map[];
    for n := 0 to |symbols|
      invariant FirstClaims(symbols, files, n, m)
    {
      var name := symbols[n].name;
      assert NameCount(symbols, name) == if name in counts then counts[name] else 0;
      m := EnterSymbol(symbols, files, n, name in counts && counts[name] == 1, m);
    }
  }

  /** A bare name is a key only if exactly one symbol has it, and then leads to that symbol. */
  lemma {:induction false} BareKeysAreUnique(symbols: seq<Symbol>, files: seq<FileEntry>, m: map<string, nat>,
                                             k: string)
    requires SymbolsOk(symbols, |files|) && FirstClaim(symbols, files, |symbols|, m, k)
    requires k in m && !HasSep(k)
    ensures NameCount(symbols, k) == 1 && symbols[m[k]].name == k
  {
    var sym := symbols[m[k]];
    if sym.fileIdx < |files| && k in Aliases(sym, files[sym.fileIdx]) {
      AliasesHaveSep(sym, files[sym.fileIdx], k);
    }
  }

  // ---------- edge resolution ----------

  /** The first position of the separator in `s` from `i` on, or |s|. */
  function SepFrom(s: string, i: nat): (k: nat)
    requires i <= |s|
    ensures i <= k <= |s| && (k < |s| ==> SepAt(s, k))
    decreases |s| - i
  {
    if i == |s| || SepAt(s, i) then i else SepFrom(s, i + 1)
  }

  /** The last position of the separator in `s` before `i`, or None. */
  function SepBefore(s: string, i: nat): (k: Option<nat>)
    requires i <= |s|
    ensures k.Some? ==> k.value + 2 <= |s|
  {
    if i == 0 then None
    else if SepAt(s, i - 1) then Some(i - 1)
    else SepBefore(s, i - 1)
  }

  /** `crate::`, `self::` and one `super::` rewritten to the crate's name. */
  function RewriteRelative(name: string, from: nat, files: seq<FileEntry>, symbols: seq<Symbol>): Option<string> {
    var k := SepFrom(name, 0);
    if k == |name| || from >= |symbols| || symbols[from].fileIdx >= |files| then None
    else
      var f := files[symbols[from].fileIdx];
      if !f.isRust || f.crate.None? then None
      else
        var (crate, modules) := f.crate.value;
        var prefix, rest := name[..k], name[k + 2..];
        if prefix == "crate" then Some(crate + SEP + rest)
        else if prefix == "self" then Some(JoinSep([crate] + modules + [rest]))
        else if prefix == "super" then
          Some(JoinSep([crate] + modules[..if |modules| > 0 then |modules| - 1 else 0] + [rest]))
        else None
  }

  function Get(m: map<string, nat>, k: string): Option<nat> {
    if k in m then Some(m[k]) else None
  }

  function OrElse(a: Option<nat>, b: Option<nat>): Option<nat> {
    if a.Some? then a else b
  }

  function ViaImports(name: string, from: nat, files: seq<FileEntry>, symbols: seq<Symbol>,
                      m: map<string, nat>): Option<nat> {
    if from >= |symbols| || symbols[from].fileIdx >= |files| || name !in files[symbols[from].fileIdx].imports then None
    else
      var path := files[symbols[from].fileIdx].imports[name];
      OrElse(Get(m, path), Get(m, path + SEP + name))
  }

  /** The first symbol of a file with a name. */
  function FirstInFile(symbols: seq<Symbol>, i: nat, fileIdx: nat, name: string): (r: Option<nat>)
    requires i <= |symbols|
    ensures r.Some? ==>
              exists j :: i <= j < |symbols| && symbols[j].id == r.value && symbols[j].name == name
                && symbols[j].fileIdx == fileIdx
    decreases |symbols| - i
  {
    if i == |symbols| then None
    else if symbols[i].fileIdx == fileIdx && symbols[i].name == name then Some(symbols[i].id)
    else FirstInFile(symbols, i + 1, fileIdx, name)
  }

  function InSameFile(name: string, from: nat, symbols: seq<Symbol>): Option<nat> {
    if from >= |symbols| then None else FirstInFile(symbols, 0, symbols[from].fileIdx, name)
  }

  function ByLeaf(name: string, m: map<string, nat>, crates: set<string>): Option<nat> {
    var first := SepFrom(name, 0);
    var last := SepBefore(name, |name|);
    if first == |name| || last.None? || name[..first] !in crates then None
    else Get(m, name[last.value + 2..])
  }

  function ProjectCrates(files: seq<FileEntry>): set<string> {
    set i | 0 <= i < |files| && files[i].isRust && files[i].crate.Some? :: files[i].crate.value.0
  }

  function LookupName(name: string, from: nat, files: seq<FileEntry>, symbols: seq<Symbol>): string {
    match RewriteRelative(name, from, files, symbols)
    case Some(n) => n
    case None => name
  }

  function Resolve(lookup: string, from: nat, files: seq<FileEntry>, symbols: seq<Symbol>,
                   m: map<string, nat>): Option<nat> {
    OrElse(Get(m, lookup),
      OrElse(ViaImports(lookup, from, files, symbols, m),
        OrElse(InSameFile(lookup, from, symbols), ByLeaf(lookup, m, ProjectCrates(files)))))
  }

  ghost predicate MapInRange(m: map<string, nat>, n: nat) {
    forall k :: k in m ==> m[k] < n
  }

  lemma ResolveInRange(lookup: string, from: nat, files: seq<FileEntry>, symbols: seq<Symbol>, m: map<string, nat>)
    requires DenseIds(symbols) && MapInRange(m, |symbols|)
    ensures var r := Resolve(lookup, from, files, symbols, m); r.Some? ==> r.value < |symbols|
  {
  }

  // ---------- what resolution promises ----------

  /** The separator stands at k and nowhere before. */
  predicate FirstSep(name: string, k: nat) {
    SepAt(name, k) && forall i :: 0 <= i < k ==> !SepAt(name, i)
  }

  predicate LastSep(name: string, k: nat) {
    SepAt(name, k) && forall i :: k < i < |name| ==> !SepAt(name, i)
  }

  /** The name starts with a relative prefix, inside a file of a crate; `path` is that
    * file's module path, crate first, and `rest` what follows the prefix. */
  predicate IsRelative(name: string, from: nat, files: seq<FileEntry>, symbols: seq<Symbol>, prefix: string,
                       path: seq<string>, rest: string)
  {
    && from < |symbols| && symbols[from].fileIdx < |files|
    && var f := files[symbols[from].fileIdx];
       && f.isRust && f.crate.Some? && path == [f.crate.value.0] + f.crate.value.1
       && |prefix| <= |name| && FirstSep(name, |prefix|) && prefix == name[..|prefix|] && rest == name[|prefix| + 2..]
       && prefix in {"crate", "self", "super"}
  }

  /** The name that is looked up: relative prefixes become the module path they stand for. */
  ghost predicate LooksUp(name: string, from: nat, files: seq<FileEntry>, symbols: seq<Symbol>, lookup: string) {
    && (forall prefix, path, rest {:trigger IsRelative(name, from, files, symbols, prefix, path, rest)} ::
          IsRelative(name, from, files, symbols, prefix, path, rest) ==>
            && (prefix == "crate" ==> lookup == path[0] + "::" + rest)
            && (prefix == "self" ==> lookup == JoinSep(path + [rest]))
            && (prefix == "super" ==> lookup == JoinSep((if |path| > 1 then path[..|path| - 1] else path) + [rest])))
    && ((forall prefix, path, rest {:trigger IsRelative(name, from, files, symbols, prefix, path, rest)} ::
           !IsRelative(name, from, files, symbols, prefix, path, rest)) ==> lookup == name)
  }

  /** The file imports the name from `path`. */
  predicate Imported(lookup: string, from: nat, files: seq<FileEntry>, symbols: seq<Symbol>, path: string) {
    && from < |symbols| && symbols[from].fileIdx < |files|
    && var imports := files[symbols[from].fileIdx].imports; lookup in imports && imports[lookup] == path
  }

  /** Symbol j is the first of the file with that name. */
  predicate FirstHere(lookup: string, from: nat, symbols: seq<Symbol>, j: nat) {
    && from < |symbols| && j < |symbols|
    && symbols[j].fileIdx == symbols[from].fileIdx && symbols[j].name == lookup
    && forall i :: 0 <= i < j ==> symbols[i].fileIdx != symbols[from].fileIdx || symbols[i].name != lookup
  }

  /** What stands before the first separator. */
  predicate HeadIs(path: string, head: string) {
    |head| <= |path| && head == path[..|head|] && FirstSep(path, |head|)
  }

  /** What stands behind the last one. */
  predicate LeafIs(path: string, leaf: string) {
    |leaf| + 2 <= |path| && leaf == path[|path| - |leaf|..] && LastSep(path, |path| - |leaf| - 2)
  }

  predicate HasCrate(f: FileEntry, lookup: string) {
    f.isRust && f.crate.Some? && HeadIs(lookup, f.crate.value.0)
  }

  /** The path starts with the name of a crate of the project, and ends in `leaf`. */
  predicate CrateLeaf(lookup: string, files: seq<FileEntry>, leaf: string) {
    LeafIs(lookup, leaf) && exists k :: 0 <= k < |files| && HasCrate(files[k], lookup)
  }

  /** What a name leads to through imports. */
  ghost predicate LeadsByImport(lookup: string, from: nat, files: seq<FileEntry>, symbols: seq<Symbol>,
                                m: map<string, nat>, id: nat)
  {
    exists path {:trigger Imported(lookup, from, files, symbols, path)} ::
      && Imported(lookup, from, files, symbols, path)
      && if path in m then id == m[path]
         else path + "::" + lookup in m && id == m[path + "::" + lookup]
  }

  ghost predicate LeadsByLeaf(lookup: string, files: seq<FileEntry>, m: map<string, nat>, id: nat) {
    exists leaf {:trigger CrateLeaf(lookup, files, leaf)} ::
      CrateLeaf(lookup, files, leaf) && leaf in m && id == m[leaf]
  }

  /** The order of resolution: the map, the imports, the file itself, the leaf of a path
    * into a crate of the project; external if all fail. */
  ghost predicate Links(lookup: string, from: nat, files: seq<FileEntry>, symbols: seq<Symbol>, m: map<string, nat>,
                        to: Target)
  {
    if lookup in m then to == Resolved(m[lookup])
    else if exists id :: LeadsByImport(lookup, from, files, symbols, m, id) then
      to.Resolved? && LeadsByImport(lookup, from, files, symbols, m, to.id)
    else if exists j :: FirstHere(lookup, from, symbols, j) then
      to.Resolved? && FirstHere(lookup, from, symbols, to.id)
    else if exists id :: LeadsByLeaf(lookup, files, m, id) then
      to.Resolved? && LeadsByLeaf(lookup, files, m, to.id)
    else to == External("*" + lookup)
  }

  lemma {:induction false} SepFromIsFirst(s: string, i: nat)
    requires i <= |s|
    ensures forall j :: i <= j < SepFrom(s, i) ==> !SepAt(s, j)
    decreases |s| - i
  {
    if i < |s| && !SepAt(s, i) {
      SepFromIsFirst(s, i + 1);
    }
  }

  lemma {:induction false} SepBeforeIsLast(s: string, i: nat)
    requires i <= |s|
    ensures match SepBefore(s, i)
            case None => forall j :: 0 <= j < i ==> !SepAt(s, j)
            case Some(k) => k < i && SepAt(s, k) && forall j :: k < j < i ==> !SepAt(s, j)
  {
    if 0 < i && !SepAt(s, i - 1) {
      SepBeforeIsLast(s, i - 1);
    }
  }

  lemma {:induction false} JoinCons(a: string, parts: seq<string>)
    requires 0 < |parts|
    ensures JoinSep([a] + parts) == a + SEP + JoinSep(parts)
  {
    assert ([a] + parts)[1..] == parts;
  }

  lemma FirstSepUnique(s: string, i: nat, j: nat)
    requires FirstSep(s, i) && FirstSep(s, j)
    ensures i == j
  {
  }

  lemma LookupIsLookedUp(name: string, from: nat, files: seq<FileEntry>, symbols: seq<Symbol>)
    ensures LooksUp(name, from, files, symbols, LookupName(name, from, files, symbols))
  {
    var k := SepFrom(name, 0);
    SepFromIsFirst(name, 0);
    if k < |name| && from < |symbols| && symbols[from].fileIdx < |files| {
      var f := files[symbols[from].fileIdx];
      if f.isRust && f.crate.Some? {
        RelativeIsRewritten(name, from, files, symbols, k);
      }
    } else {
      forall prefix, path, rest
        ensures !IsRelative(name, from, files, symbols, prefix, path, rest)
      {
        assert k == |name| && |prefix| <= |name| ==> !SepAt(name, |prefix|);
      }
    }
  }

  lemma RelativeIsRewritten(name: string, from: nat, files: seq<FileEntry>, symbols: seq<Symbol>, k: nat)
    requires from < |symbols| && symbols[from].fileIdx < |files| && k == SepFrom(name, 0) && FirstSep(name, k)
    requires var f := files[symbols[from].fileIdx]; f.isRust && f.crate.Some?
    ensures LooksUp(name, from, files, symbols, LookupName(name, from, files, symbols))
  {
    var (crate, modules) := files[symbols[from].fileIdx].crate.value;
    var prefix, rest, path := name[..k], name[k + 2..], [crate] + modules;
    assert |modules| > 0 ==> path[..|path| - 1] == [crate] + modules[..|modules| - 1];
    assert |modules| == 0 ==> path == [crate] && modules == [] && [crate] + modules[..0] == path;
    assert prefix in {"crate", "self", "super"} ==> IsRelative(name, from, files, symbols, prefix, path, rest);
    forall p, q, r | IsRelative(name, from, files, symbols, p, q, r)
      ensures p == prefix && q == path && r == rest
    {
      FirstSepUnique(name, |p|, k);
    }
  }

  lemma {:induction false} FirstInFileIsFirst(symbols: seq<Symbol>, i: nat, fileIdx: nat, name: string)
    requires DenseIds(symbols) && i <= |symbols|
    ensures match FirstInFile(symbols, i, fileIdx, name)
            case None => forall j :: i <= j < |symbols| ==> symbols[j].fileIdx != fileIdx || symbols[j].name != name
            case Some(k) =>
              && i <= k < |symbols| && symbols[k].fileIdx == fileIdx && symbols[k].name == name
              && forall j :: i <= j < k ==> symbols[j].fileIdx != fileIdx || symbols[j].name != name
    decreases |symbols| - i
  {
    if i < |symbols| && !(symbols[i].fileIdx == fileIdx && symbols[i].name == name) {
      FirstInFileIsFirst(symbols, i + 1, fileIdx, name);
    }
  }

  lemma ImportsLead(lookup: string, from: nat, files: seq<FileEntry>, symbols: seq<Symbol>, m: map<string, nat>,
                    id: nat)
    ensures LeadsByImport(lookup, from, files, symbols, m, id) <==>
            ViaImports(lookup, from, files, symbols, m) == Some(id)
  {
    if from < |symbols| && symbols[from].fileIdx < |files| && lookup in files[symbols[from].fileIdx].imports {
      var path := files[symbols[from].fileIdx].imports[lookup];
      assert Imported(lookup, from, files, symbols, path);
    }
  }

  lemma HereIsFirst(lookup: string, from: nat, symbols: seq<Symbol>, j: nat)
    requires DenseIds(symbols)
    ensures FirstHere(lookup, from, symbols, j) <==> InSameFile(lookup, from, symbols) == Some(j)
  {
    if from < |symbols| {
      FirstInFileIsFirst(symbols, 0, symbols[from].fileIdx, lookup);
    }
  }

  lemma HeadUnique(path: string, a: string, b: string)
    requires HeadIs(path, a) && HeadIs(path, b)
    ensures a == b
  {
    FirstSepUnique(path, |a|, |b|);
  }

  lemma LeafUnique(path: string, a: string, b: string)
    requires LeafIs(path, a) && LeafIs(path, b)
    ensures a == b
  {
  }

  lemma HeadAndLeaf(lookup: string)
    ensures var first, last := SepFrom(lookup, 0), SepBefore(lookup, |lookup|);
      && (first == |lookup| <==> last.None?)
      && (first < |lookup| ==> HeadIs(lookup, lookup[..first]))
      && (last.Some? ==> LeafIs(lookup, lookup[last.value + 2..]))
      && (last.None? ==> forall leaf {:trigger LeafIs(lookup, leaf)} :: !LeafIs(lookup, leaf))
  {
    SepFromIsFirst(lookup, 0);
    SepBeforeIsLast(lookup, |lookup|);
  }

  lemma {:induction false} CratesAre(files: seq<FileEntry>, name: string)
    ensures name in ProjectCrates(files) <==>
      exists k :: 0 <= k < |files| && files[k].isRust && files[k].crate.Some? && files[k].crate.value.0 == name
  {
  }

  lemma LeafLeads(lookup: string, files: seq<FileEntry>, m: map<string, nat>, id: nat)
    ensures LeadsByLeaf(lookup, files, m, id) <==> ByLeaf(lookup, m, ProjectCrates(files)) == Some(id)
  {
    var first, last := SepFrom(lookup, 0), SepBefore(lookup, |lookup|);
    HeadAndLeaf(lookup);
    if LeadsByLeaf(lookup, files, m, id) {
      var leaf :| CrateLeaf(lookup, files, leaf) && leaf in m && id == m[leaf];
      var k :| 0 <= k < |files| && HasCrate(files[k], lookup);
      HeadUnique(lookup, lookup[..first], files[k].crate.value.0);
      LeafUnique(lookup, leaf, lookup[last.value + 2..]);
      CratesAre(files, lookup[..first]);
    }
    if ByLeaf(lookup, m, ProjectCrates(files)) == Some(id) {
      CratesAre(files, lookup[..first]);
      var k :| 0 <= k < |files| && files[k].isRust && files[k].crate.Some? && files[k].crate.value.0 == lookup[..first];
      assert HasCrate(files[k], lookup);
      assert CrateLeaf(lookup, files, lookup[last.value + 2..]);
    }
  }

  /** The steps of the resolution are taken in this order. */
  lemma ResolveLinks(lookup: string, from: nat, files: seq<FileEntry>, symbols: seq<Symbol>, m: map<string, nat>)
    requires DenseIds(symbols)
    ensures Links(lookup, from, files, symbols, m,
                  match Resolve(lookup, from, files, symbols, m)
                  case Some(id) => Resolved(id)
                  case None => External("*" + lookup))
  {
    forall id: nat
      ensures LeadsByImport(lookup, from, files, symbols, m, id) <==>
              ViaImports(lookup, from, files, symbols, m) == Some(id)
      ensures FirstHere(lookup, from, symbols, id) <==> InSameFile(lookup, from, symbols) == Some(id)
      ensures LeadsByLeaf(lookup, files, m, id) <==> ByLeaf(lookup, m, ProjectCrates(files)) == Some(id)
    {
      ImportsLead(lookup, from, files, symbols, m, id);
      HereIsFirst(lookup, from, symbols, id);
      LeafLeads(lookup, files, m, id);
    }
  }

  /** An edge after resolution: same source, kind and line, and a target that is
    * a symbol of the project or external. */
  ghost predicate ResolvedFrom(e: Edge, r: Edge, files: seq<FileEntry>, symbols: seq<Symbol>, m: map<string, nat>) {
    && r.from == e.from && r.kind == e.kind && r.line == e.line && !r.to.Unresolved?
    && match e.to
       case Unresolved(name) =>
         && (exists lookup {:trigger LooksUp(name, e.from, files, symbols, lookup)} ::
               LooksUp(name, e.from, files, symbols, lookup) && Links(lookup, e.from, files, symbols, m, r.to))
         && (r.to.Resolved? ==> r.to.id < |symbols|)
       case _ => r.to == e.to
  }

  method ResolveEdge(e: Edge, files: seq<FileEntry>, symbols: seq<Symbol>, m: map<string, nat>) returns (r: Edge)
    requires DenseIds(symbols) && MapInRange(m, |symbols|)
    ensures ResolvedFrom(e, r, files, symbols, m)
  {
    r := e;
    if e.to.Unresolved? {
      var lookup := LookupName(e.to.name, e.from, files, symbols);
      var resolved := Resolve(lookup, e.from, files, symbols, m);
      ResolveInRange(lookup, e.from, files, symbols, m);
      LookupIsLookedUp(e.to.name, e.from, files, symbols);
      ResolveLinks(lookup, e.from, files, symbols, m);
      r := e.(to := match resolved case Some(id) => Resolved(id) case None => External("*" + lookup));
    }
  }

  method ResolveEdges(edges: array<Edge>, files: seq<FileEntry>, symbols: seq<Symbol>, m: map<string, nat>)
    requires DenseIds(symbols) && MapInRange(m, |symbols|)
    modifies edges
    ensures forall i :: 0 <= i < edges.Length ==> ResolvedFrom(old(edges[i]), edges[i], files, symbols, m)
  {
    for i := 0 to edges.Length
      invariant forall j :: 0 <= j < i ==> ResolvedFrom(old(edges[j]), edges[j], files, symbols, m)
      invariant forall j :: i <= j < edges.Length ==> edges[j] == old(edges[j])
    {
      edges[i] := ResolveEdge(edges[i], files, symbols, m);
    }
  }

  // ---------- grouping edges ----------

  /** The edges whose source is x, in order. */
  function From(edges: seq<Edge>, x: nat): seq<Edge> {
    if |edges| == 0 then []
    else
      var last := edges[|edges| - 1];
      From(edges[..|edges| - 1], x) + if last.from == x then [last] else []
  }

  function Transposed(e: Edge): Edge
    requires e.to.Resolved?
  {
    Edge(e.to.id, Resolved(e.from), e.kind, e.line)
  }

  /** The transposes of the resolved edges, in order. */
  function Transpose(edges: seq<Edge>): seq<Edge> {
    if |edges| == 0 then []
    else
      var last := edges[|edges| - 1];
      Transpose(edges[..|edges| - 1]) + if last.to.Resolved? then [Transposed(last)] else []
  }

  /** Each list groups the edges of one source, in order; there are no empty lists. */
  ghost predicate Groups(g: map<nat, seq<Edge>>, edges: seq<Edge>) {
    forall x :: (x in g <==> From(edges, x) != []) && (x in g ==> g[x] == From(edges, x))
  }

  /** `at` lists the positions where edges have source x, in order. */
  ghost predicate PositionsOf(edges: seq<Edge>, x: nat, at: seq<nat>) {
    && (forall i :: 0 <= i < |at| ==> at[i] < |edges| && edges[at[i]].from == x)
    && (forall i, j :: 0 <= i < j < |at| ==> at[i] < at[j])
    && forall p: nat {:trigger Listed(at, p)} :: p < |edges| && edges[p].from == x ==> Listed(at, p)
  }

  predicate Listed(at: seq<nat>, p: nat) {
    exists i :: 0 <= i < |at| && at[i] == p
  }

  lemma PositionsMore(edges: seq<Edge>, x: nat, front: seq<nat>)
    requires 0 < |edges| && PositionsOf(edges[..|edges| - 1], x, front)
    ensures var n := |edges| - 1; PositionsOf(edges, x, if edges[n].from == x then front + [n] else front)
  {
    var n := |edges| - 1;
    var at := if edges[n].from == x then front + [n] else front;
    forall p: nat | p < |edges| && edges[p].from == x
      ensures Listed(at, p)
    {
      if p < n {
        assert edges[..n][p] == edges[p] && Listed(front, p);
        var i :| 0 <= i < |front| && front[i] == p;
        assert at[i] == p;
      } else {
        assert at[|front|] == p;
      }
    }
  }

  /** A group holds the edges of its source in the order of the list. */
  lemma {:induction false} FromInOrder(edges: seq<Edge>, x: nat) returns (at: seq<nat>)
    ensures PositionsOf(edges, x, at) && |From(edges, x)| == |at|
    ensures forall i :: 0 <= i < |at| ==> From(edges, x)[i] == edges[at[i]]
  {
    if |edges| == 0 {
      at := [];
    } else {
      var n := |edges| - 1;
      var front := FromInOrder(edges[..n], x);
      at := if edges[n].from == x then front + [n] else front;
      PositionsMore(edges, x, front);
    }
  }

  function PushTo(g: map<nat, seq<Edge>>, e: Edge): map<nat, seq<Edge>> {
    g[e.from := (if e.from in g then g[e.from] else []) + [e]]
  }

  lemma PushToGroups(g: map<nat, seq<Edge>>, edges: seq<Edge>, e: Edge)
    requires Groups(g, edges)
    ensures Groups(PushTo(g, e), edges + [e])
  {
    assert (edges + [e])[..|edges|] == edges;
  }

  method BuildForwardEdges(edges: seq<Edge>) returns (forward: map<nat, seq<Edge>>)
    ensures Groups(forward, edges)
  {
    forward := map[];
    for i := 0 to |edges|
      invariant Groups(forward, edges[..i])
    {
      PushToGroups(forward, edges[..i], edges[i]);
      assert edges[..i] + [edges[i]] == edges[..i + 1];
      forward := PushTo(forward, edges[i]);
    }
    assert edges[..|edges|] == edges;
  }

  method BuildReverseEdges(edges: seq<Edge>) returns (reverse: map<nat, seq<Edge>>)
    ensures Groups(reverse, Transpose(edges))
  {
    reverse := map[];
    for i := 0 to |edges|
      invariant Groups(reverse, Transpose(edges[..i]))
    {
      assert edges[..i + 1][..i] == edges[..i];
      assert Transpose(edges[..i]) + [] == Transpose(edges[..i]);
      if edges[i].to.Resolved? {
        PushToGroups(reverse, Transpose(edges[..i]), Transposed(edges[i]));
        reverse := PushTo(reverse, Transposed(edges[i]));
      }
    }
    assert edges[..|edges|] == edges;
  }

  function Count(edges: seq<Edge>, e: Edge): nat {
    if |edges| == 0 then 0 else Count(edges[..|edges| - 1], e) + if edges[|edges| - 1] == e then 1 else 0
  }

  lemma {:induction false} CountSnoc(edges: seq<Edge>, x: Edge, e: Edge)
    ensures Count(edges + [x], e) == Count(edges, e) + if x == e then 1 else 0
  {
    assert (edges + [x])[..|edges|] == edges;
  }

  /** The transpose holds each reversed edge exactly as often as the edges hold the original. */
  lemma {:induction false} TransposeIsExact(edges: seq<Edge>, e: Edge)
    requires e.to.Resolved?
    ensures Count(Transpose(edges), Transposed(e)) == Count(edges, e)
  {
    if |edges| > 0 {
      var front, last := edges[..|edges| - 1], edges[|edges| - 1];
      TransposeIsExact(front, e);
      if last.to.Resolved? {
        CountSnoc(Transpose(front), Transposed(last), Transposed(e));
      } else {
        assert Transpose(front) + [] == Transpose(front);
      }
    }
  }

  /** The transposes stand in the order of the edges: that of edge k behind those of
    * the resolved edges before it. */
  lemma {:induction false} TransposeInOrder(edges: seq<Edge>, k: nat)
    requires k < |edges| && edges[k].to.Resolved?
    ensures |Transpose(edges[..k])| < |Transpose(edges)|
    ensures Transpose(edges)[|Transpose(edges[..k])|]
         == Edge(edges[k].to.id, Resolved(edges[k].from), edges[k].kind, edges[k].line)
    ensures Transpose(edges[..k]) <= Transpose(edges)
  {
    var n := |edges| - 1;
    if k < n {
      TransposeInOrder(edges[..n], k);
      assert edges[..n][..k] == edges[..k];
    }
  }

  /** A group holds each of its edges exactly as often as the whole list does. */
  lemma {:induction false} GroupIsExact(edges: seq<Edge>, e: Edge)
    ensures Count(From(edges, e.from), e) == Count(edges, e)
  {
    if |edges| > 0 {
      var front, last := edges[..|edges| - 1], edges[|edges| - 1];
      GroupIsExact(front, e);
      if last.from == e.from {
        CountSnoc(From(front, e.from), last, e);
      } else {
        assert From(front, e.from) + [] == From(front, e.from);
      }
    }
  }

  /** `a` calls `b` in the forward lists exactly as often as `b` is called by `a` in the reverse lists. */
  lemma {:induction false} ReverseMirrorsForward(edges: seq<Edge>, forward: map<nat, seq<Edge>>,
                                                 reverse: map<nat, seq<Edge>>, e: Edge)
    requires Groups(forward, edges) && Groups(reverse, Transpose(edges)) && e.to.Resolved?
    ensures (if e.from in forward then Count(forward[e.from], e) else 0)
         == (if e.to.id in reverse then Count(reverse[e.to.id], Transposed(e)) else 0)
  {
    GroupIsExact(edges, e);
    GroupIsExact(Transpose(edges), Transposed(e));
    TransposeIsExact(edges, e);
  }

  // ---------- the whole index ----------

  /** A source file: its parse tree, unless parsing failed, and what its path says. */
  datatype Source = Source(entry: FileEntry, config: Walker.LangConfig, tree: Option<Walker.Node>)

  /** Ids are positions, files exist, parents are older symbols, qualified names are qualified. */
  ghost predicate SymbolsOk(symbols: seq<Symbol>, files: nat) {
    forall i :: 0 <= i < |symbols| ==>
      && symbols[i].id == i && symbols[i].fileIdx < files
      && (symbols[i].parent.Some? ==> symbols[i].parent.value < i)
      && (symbols[i].qualified == symbols[i].name || HasSep(symbols[i].qualified))
  }

  ghost predicate EdgesFromSymbols(edges: seq<Edge>, n: nat) {
    forall i :: 0 <= i < |edges| ==> edges[i].from < n
  }

  /** What parsing the first n sources yields. */
  datatype Parsed = Parsed(files: seq<FileEntry>, symbols: seq<Symbol>, edges: seq<Edge>)

  /** The sources that parsed, in order, each with its whole walk, and nothing else. */
  ghost predicate ParsedFrom(p: Parsed, sources: seq<Source>)
    decreases |sources|
  {
    if |sources| == 0 then p == Parsed([], [], [])
    else
      var src := sources[|sources| - 1];
      if src.tree.None? then ParsedFrom(p, sources[..|sources| - 1])
      else
        exists front: Parsed {:trigger ParsedFrom(front, sources[..|sources| - 1])} ::
          && ParsedFrom(front, sources[..|sources| - 1])
          && var r := Walker.FileWalk(src.config, src.tree.value, |front.files|, |front.symbols|);
             && p.files == front.files + [src.entry]
             && p.symbols == front.symbols + Walker.Symbols(r.made)
             && p.edges == front.edges + Walker.Edges(r.found)
  }

  method ParseSources(sources: seq<Source>) returns (files: seq<FileEntry>, symbols: seq<Symbol>, edges: seq<Edge>)
    requires forall i :: 0 <= i < |sources| ==> sources[i].config.Valid()
    ensures SymbolsOk(symbols, |files|) && EdgesFromSymbols(edges, |symbols|)
    ensures |files| <= |sources| && ParsedFrom(Parsed(files, symbols, edges), sources)
  {
    files, symbols, edges := [], [], [];
    for i := 0 to |sources|
      invariant SymbolsOk(symbols, |files|) && EdgesFromSymbols(edges, |symbols|) && |files| <= i
      invariant ParsedFrom(Parsed(files, symbols, edges), sources[..i])
    {
      var src := sources[i];
      assert sources[..i + 1][..i] == sources[..i];
      if src.tree.Some? {
        var syms, es := Walker.ParseFile(src.tree.value, |files|, src.config, |symbols|);
        FileIsOk(src.config, src.tree.value, |files|, |symbols|, syms, es);
        files := files + [src.entry];
        symbols := symbols + syms;
        edges := edges + es;
      }
    }
    assert sources[..|sources|] == sources;
  }

  lemma FileIsOk(cfg: Walker.LangConfig, root: Walker.Node, fileIdx: nat, start: nat, syms: seq<Symbol>, es: seq<Edge>)
    requires cfg.Valid()
    requires var r := Walker.FileWalk(cfg, root, fileIdx, start);
      syms == Walker.Symbols(r.made) && es == Walker.Edges(r.found)
    ensures forall i :: 0 <= i < |syms| ==>
              && syms[i].id == start + i && syms[i].fileIdx == fileIdx
              && (syms[i].parent.Some? ==> syms[i].parent.value < start + i)
              && (syms[i].qualified == syms[i].name || HasSep(syms[i].qualified))
    ensures forall i :: 0 <= i < |es| ==> es[i].from < start + |syms|
  {
    WalkerLaws.FileWalkLaws(cfg, root, fileIdx, start);
    WalkerLaws.FileIndexes(cfg, root, fileIdx, start);
    var r := Walker.FileWalk(cfg, root, fileIdx, start);
    forall i | 0 <= i < |syms|
      ensures syms[i].fileIdx == fileIdx && (syms[i].qualified == syms[i].name || HasSep(syms[i].qualified))
    {
      assert WalkerLaws.OfFile(r.made[i], fileIdx);
      var q :| syms[i].qualified == Walker.Qualify(q, syms[i].name);
      HasSepMiddle(q, syms[i].name);
    }
    forall i | 0 <= i < |es|
      ensures es[i].from < start + |syms|
    {
      assert WalkerLaws.Owned(cfg, root, r.made, start, r.found[i]);
    }
  }

  datatype ProjectIndex = ProjectIndex(
    symbols: seq<Symbol>, edges: seq<Edge>, files: seq<FileEntry>, qualifiedMap: map<string, nat>,
    reverseEdges: map<nat, seq<Edge>>, forwardEdges: map<nat, seq<Edge>>)

  method BuildIndexFromSources(sources: seq<Source>) returns (index: ProjectIndex, ghost unresolved: seq<Edge>)
    requires forall i :: 0 <= i < |sources| ==> sources[i].config.Valid()
    ensures SymbolsOk(index.symbols, |index.files|)
    ensures FirstClaims(index.symbols, index.files, |index.symbols|, index.qualifiedMap)
    ensures MapInRange(index.qualifiedMap, |index.symbols|)
    ensures forall k :: k in index.qualifiedMap && !HasSep(k) ==>
              NameCount(index.symbols, k) == 1 && index.symbols[index.qualifiedMap[k]].name == k
    ensures |index.edges| == |unresolved| && EdgesFromSymbols(index.edges, |index.symbols|)
    ensures forall i :: 0 <= i < |unresolved| ==>
              ResolvedFrom(unresolved[i], index.edges[i], index.files, index.symbols, index.qualifiedMap)
    ensures ParsedFrom(Parsed(index.files, index.symbols, unresolved), sources)
    ensures Groups(index.forwardEdges, index.edges) && Groups(index.reverseEdges, Transpose(index.edges))
  {
    var files, symbols, edges := ParseSources(sources);
    unresolved := edges;
    var m := BuildQualifiedMap(symbols, files);
    forall k | k in m
      ensures m[k] < |symbols|
      ensures !HasSep(k) ==> NameCount(symbols, k) == 1 && symbols[m[k]].name == k
    {
      assert FirstClaim(symbols, files, |symbols|, m, k);
      if !HasSep(k) { BareKeysAreUnique(symbols, files, m, k); }
    }
    var all := new Edge[|edges|](i requires 0 <= i < |edges| => edges[i]);
    ResolveEdges(all, files, symbols, m);
    var resolved := all[..];
    var reverse := BuildReverseEdges(resolved);
    var forward := BuildForwardEdges(resolved);
    index := ProjectIndex(symbols, resolved, files, m, reverse, forward);
  }
}
