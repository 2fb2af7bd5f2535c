/** Batched `file_path IN (...)` predicates.  A string stands for its bytes. */
module DeleteFilter {
  import opened Wrappers

  const DELETE_FILTER_MAX_BYTES := 8192
  const FILTER_PREFIX := "file_path IN ("

  /** An SQL character string literal's body: every quote doubled. */
  function Escaped(value: string): (e: string)
    ensures |value| <= |e| <= 2 * |value|
  {
    if |value| == 0 then ""
    else Escaped(value[..|value| - 1]) + if value[|value| - 1] == '\'' then "''" else [value[|value| - 1]]
  }

  method PushEscapedSqlString(value: string, out0: string) returns (out: string)
    ensures out == out0 + Escaped(value)
  {
    out := out0;
    for i := 0 to |value|
      invariant out == out0 + Escaped(value[..i])
    {
      assert value[..i + 1][..i] == value[..i];
      if value[i] == '\'' {
        out := out + ['\''];
      }
      out := out + [value[i]];
    }
    assert value[..|value|] == value;
  }

  /** The list so far, without its closing parenthesis. */
  function Open(group: seq<string>): string {
    if |group| == 0 then ""
    else Open(group[..|group| - 1]) + Item(group[|group| - 1], |group| == 1)
  }

  /** What one path adds to the list. */
  function Item(path: string, first: bool): string {
    (if first then FILTER_PREFIX else ", ") + "'" + Escaped(path) + "'"
  }

  lemma {:induction false} OpenSnoc(group: seq<string>, path: string)
    ensures Open(group + [path]) == Open(group) + Item(path, |group| == 0)
    ensures |Item(path, |group| == 0)| <= |FILTER_PREFIX| + 2 + 2 * |path|
    ensures 0 < |group| ==> |Item(path, |group| == 0)| <= 4 + 2 * |path|
  {
    assert (group + [path])[..|group|] == group;
  }

  function Filter(group: seq<string>): string {
    Open(group) + ")"
  }

  function Concat<T>(groups: seq<seq<T>>): seq<T> {
    if |groups| == 0 then [] else Concat(groups[..|groups| - 1]) + groups[|groups| - 1]
  }

  /** A predicate stays within the limit unless it names a single path. */
  predicate FitsLimit(group: seq<string>) {
    0 < |group| && (|Filter(group)| <= DELETE_FILTER_MAX_BYTES || |group| == 1)
  }

  predicate Renders(filters: seq<string>, groups: seq<seq<string>>) {
    |filters| == |groups| && forall k :: 0 <= k < |groups| ==> filters[k] == Filter(groups[k]) && FitsLimit(groups[k])
  }

  lemma {:induction false} RendersMore(filters: seq<string>, groups: seq<seq<string>>, group: seq<string>)
    requires Renders(filters, groups) && FitsLimit(group)
    ensures Renders(filters + [Filter(group)], groups + [group])
    ensures Concat(groups + [group]) == Concat(groups) + group
  {
    assert (groups + [group])[..|groups|] == groups;
  }

  /** The first i paths are in the finished filters and in the list under construction. */
  ghost predicate Progress(filters: seq<string>, groups: seq<seq<string>>, group: seq<string>, current: string,
                           paths: seq<string>, i: nat)
    requires i <= |paths|
  {
    && Renders(filters, groups) && Concat(groups) + group == paths[..i]
    && current == Open(group) && (0 < |group| ==> FitsLimit(group))
  }

  lemma CloseKeeps(filters: seq<string>, groups: seq<seq<string>>, group: seq<string>, current: string,
                   paths: seq<string>, i: nat)
    requires i <= |paths| && Progress(filters, groups, group, current, paths, i) && 0 < |group|
    ensures Progress(filters + [current + ")"], groups + [group], [], "", paths, i)
  {
    RendersMore(filters, groups, group);
    assert Concat(groups + [group]) + [] == paths[..i];
  }

  lemma AddKeeps(filters: seq<string>, groups: seq<seq<string>>, group: seq<string>, current: string,
                 paths: seq<string>, i: nat)
    requires i < |paths| && Progress(filters, groups, group, current, paths, i)
    requires 0 < |group| ==> |current| + 2 * |paths[i]| + 5 <= DELETE_FILTER_MAX_BYTES
    ensures Progress(filters, groups, group + [paths[i]], current + Item(paths[i], |group| == 0), paths, i + 1)
  {
    OpenSnoc(group, paths[i]);
    assert Concat(groups) + (group + [paths[i]]) == (Concat(groups) + group) + [paths[i]];
    assert FitsLimit(group + [paths[i]]);
  }

  method PushItem(current: string, path: string, first: bool) returns (out: string)
    ensures out == current + Item(path, first)
  {
    out := current + if first then FILTER_PREFIX else ", ";
    out := out + "'";
    out := PushEscapedSqlString(path, out);
    out := out + "'";
  }

  method FilePathDeleteFilters(paths: seq<string>) returns (filters: seq<string>, ghost groups: seq<seq<string>>)
    ensures Renders(filters, groups) && Concat(groups) == paths
    ensures ParseAll(filters) == Some(paths)
  {
    filters, groups := [], [];
    var current := "";
    var items := 0;
    ghost var group: seq<string> := [];
    for i := 0 to |paths|
      invariant items == |group| && Progress(filters, groups, group, current, paths, i)
    {
      var path := paths[i];
      var itemLen := |", '"| + |path| * 2 + |"')"|;
      if items > 0 && |current| + itemLen > DELETE_FILTER_MAX_BYTES {
        CloseKeeps(filters, groups, group, current, paths, i);
        current := current + ")";
        filters, groups := filters + [current], groups + [group];
        current, items, group := "", 0, [];
      }
      AddKeeps(filters, groups, group, current, paths, i);
      current := PushItem(current, path, items == 0);
      items := items + 1;
      group := group + [path];
    }
    if items > 0 {
      CloseKeeps(filters, groups, group, current, paths, |paths|);
      current := current + ")";
      filters, groups := filters + [current], groups + [group];
      group := [];
    }
    assert Concat(groups) + [] == Concat(groups) && paths[..|paths|] == paths;
    ParseAllFilters(filters, groups);
  }

  // ---------- reading the predicates back ----------

  /** After an opening quote: the literal's value and the text behind its closing quote. */
  function ReadQuoted(s: string): Option<(string, string)> {
    if |s| == 0 then None
    else if s[0] != '\'' then
      match ReadQuoted(s[1..])
      case None => None
      case Some((v, rest)) => Some(([s[0]] + v, rest))
    else if |s| > 1 && s[1] == '\'' then
      match ReadQuoted(s[2..])
      case None => None
      case Some((v, rest)) => Some((['\''] + v, rest))
    else Some(("", s[1..]))
  }

  /** A list of literals separated by ", " up to a closing parenthesis that ends the text. */
  function ReadList(s: string): Option<seq<string>>
    decreases |s|
  {
    if |s| == 0 || s[0] != '\'' then None
    else
      match ReadQuoted(s[1..])
      case None => None
      case Some((v, rest)) =>
        if rest == ")" then Some([v])
        else if |rest| < |s| && |rest| >= 2 && rest[..2] == ", " then
          match ReadList(rest[2..])
          case None => None
          case Some(vs) => Some([v] + vs)
        else None
  }

  function Parse(filter: string): Option<seq<string>> {
    if FILTER_PREFIX <= filter then ReadList(filter[|FILTER_PREFIX|..]) else None
  }

  function ParseAll(filters: seq<string>): Option<seq<string>> {
    if |filters| == 0 then Some([])
    else
      match (ParseAll(filters[..|filters| - 1]), Parse(filters[|filters| - 1]))
      case (Some(a), Some(b)) => Some(a + b)
      case _ => None
  }

  /** `Escaped`, unfolded from the front. */
  lemma {:induction false} EscapedCons(c: char, v: string)
    ensures Escaped([c] + v) == (if c == '\'' then "''" else [c]) + Escaped(v)
  {
    var s := [c] + v;
    if |v| == 0 {
      assert s[..0] == "" && s[0] == c && v == "" && s[..|s| - 1] == "";
      assert Escaped(s) == Escaped("") + if c == '\'' then "''" else [c];
    } else {
      assert s[..|s| - 1] == [c] + v[..|v| - 1];
      EscapedCons(c, v[..|v| - 1]);
      var h := if c == '\'' then "''" else [c];
      var t := if v[|v| - 1] == '\'' then "''" else [v[|v| - 1]];
      assert (h + Escaped(v[..|v| - 1])) + t == h + (Escaped(v[..|v| - 1]) + t);
    }
  }

  /** A doubled quote, or any other character, in front of a literal's body. */
  lemma ReadHead(c: char, tail: string, v: string, rest: string)
    requires ReadQuoted(tail) == Some((v, rest))
    ensures ReadQuoted((if c == '\'' then "''" else [c]) + tail) == Some(([c] + v, rest))
  {
    if c == '\'' {
      assert ("''" + tail)[2..] == tail;
    } else {
      assert ([c] + tail)[1..] == tail;
    }
  }

  lemma {:induction false} ReadEscaped(v: string, rest: string)
    requires |rest| == 0 || rest[0] != '\''
    ensures ReadQuoted(Escaped(v) + ("'" + rest)) == Some((v, rest))
  {
    if |v| == 0 {
      assert ("'" + rest)[1..] == rest && Escaped(v) + ("'" + rest) == "'" + rest;
    } else {
      var head, tail := if v[0] == '\'' then "''" else [v[0]], Escaped(v[1..]) + ("'" + rest);
      assert v == [v[0]] + v[1..];
      EscapedCons(v[0], v[1..]);
      assert Escaped(v) + ("'" + rest) == head + tail;
      ReadEscaped(v[1..], rest);
      ReadHead(v[0], tail, v[1..], rest);
    }
  }

  /** The items of a list from index `k` on, as they appear in the filter. */
  function ItemsFrom(group: seq<string>, k: nat): string
    requires k < |group|
    decreases |group| - k
  {
    "'" + (Escaped(group[k]) + ("'" + if k + 1 == |group| then ")" else ", " + ItemsFrom(group, k + 1)))
  }

  lemma {:induction false} FilterItems(group: seq<string>, k: nat)
    requires k < |group|
    ensures Filter(group) == Open(group[..k]) + ((if k == 0 then FILTER_PREFIX else ", ") + ItemsFrom(group, k))
    decreases |group| - k
  {
    OpenSnoc(group[..k], group[k]);
    assert group[..k] + [group[k]] == group[..k + 1];
    if k + 1 == |group| {
      assert group[..k + 1] == group;
      RegroupItem(Open(group[..k]), group[k], k == 0, ")");
    } else {
      FilterItems(group, k + 1);
      RegroupItem(Open(group[..k]), group[k], k == 0, ", " + ItemsFrom(group, k + 1));
    }
  }

  lemma {:induction false} RegroupItem(before: string, path: string, first: bool, rest: string)
    ensures (before + Item(path, first)) + rest
         == before + ((if first then FILTER_PREFIX else ", ") + ("'" + (Escaped(path) + ("'" + rest))))
  {
  }

  lemma {:induction false} ReadLast(v: string)
    ensures ReadList("'" + (Escaped(v) + ("'" + ")"))) == Some([v])
  {
    ReadEscaped(v, ")");
    assert ("'" + (Escaped(v) + ("'" + ")")))[1..] == Escaped(v) + ("'" + ")");
  }

  lemma {:induction false} ReadMore(v: string, tail: string, vs: seq<string>)
    requires ReadList(tail) == Some(vs)
    ensures ReadList("'" + (Escaped(v) + ("'" + (", " + tail)))) == Some([v] + vs)
  {
    var rest := ", " + tail;
    ReadEscaped(v, rest);
    assert ("'" + (Escaped(v) + ("'" + rest)))[1..] == Escaped(v) + ("'" + rest);
    assert rest[..2] == ", " && rest[2..] == tail;
  }

  lemma {:induction false} ReadItems(group: seq<string>, k: nat)
    requires k < |group|
    ensures ReadList(ItemsFrom(group, k)) == Some(group[k..])
    decreases |group| - k
  {
    if k + 1 < |group| {
      ReadItems(group, k + 1);
      ReadMore(group[k], ItemsFrom(group, k + 1), group[k + 1..]);
      assert group[k..] == [group[k]] + group[k + 1..];
    } else {
      ReadLast(group[k]);
      assert group[k..] == [group[k]];
    }
  }

  /** Each predicate parses back to exactly its paths. */
  lemma ParseFilter(group: seq<string>)
    requires 0 < |group|
    ensures Parse(Filter(group)) == Some(group)
  {
    FilterItems(group, 0);
    ReadItems(group, 0);
    assert Filter(group) == FILTER_PREFIX + ItemsFrom(group, 0);
    assert Filter(group)[|FILTER_PREFIX|..] == ItemsFrom(group, 0);
    assert group[0..] == group;
  }

  lemma {:induction false} ParseAllFilters(filters: seq<string>, groups: seq<seq<string>>)
    requires Renders(filters, groups)
    ensures ParseAll(filters) == Some(Concat(groups))
  {
    var n := |filters|;
    if n > 0 {
      ParseAllFilters(filters[..n - 1], groups[..n - 1]);
      ParseFilter(groups[n - 1]);
    }
  }
}
