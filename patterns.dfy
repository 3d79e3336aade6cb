/**
 * Hand-written matchers for the three fixed regular expressions of the translator,
 * and the two ways it drives them: `re.search` (leftmost match) for the block
 * pattern and `re.finditer` (successive non-overlapping matches) for the
 * declaration patterns. `\w` is the ASCII word class; `\s` is `str.isspace`.
 */
module Patterns {
  import opened Wrappers
  import opened PyStr

  predicate IsWordChar(c: char) {
    ('a' <= c <= 'z') || ('A' <= c <= 'Z') || ('0' <= c <= '9') || c == '_'
  }

  predicate AllWord(s: string) {
    forall i :: 0 <= i < |s| ==> IsWordChar(s[i])
  }

  /** A text matched by `\w+`. */
  predicate IsWord(s: string) {
    |s| > 0 && AllWord(s)
  }

  predicate StartsAt(s: string, i: nat, lit: string) {
    i + |lit| <= |s| && s[i..i + |lit|] == lit
  }

  /** End of the longest run of whitespace starting at `i`. */
  function SpaceEnd(s: string, i: nat): (r: nat)
    requires i <= |s|
    ensures i <= r <= |s| && AllSpace(s[i..r])
    ensures r == |s| || !IsSpace(s[r])
    decreases |s| - i
  {
    if i < |s| && IsSpace(s[i]) then
      var r := SpaceEnd(s, i + 1);
      assert s[i..r] == [s[i]] + s[i + 1..r];
      r
    else i
  }

  /** End of the longest run of word characters starting at `i`. */
  function WordEnd(s: string, i: nat): (r: nat)
    requires i <= |s|
    ensures i <= r <= |s| && AllWord(s[i..r])
    ensures r == |s| || !IsWordChar(s[r])
    decreases |s| - i
  {
    if i < |s| && IsWordChar(s[i]) then
      var r := WordEnd(s, i + 1);
      assert s[i..r] == [s[i]] + s[i + 1..r];
      r
    else i
  }

  /**
   * `\s+(\w+)` at `i`: the captured word and the end of the match. No shorter
   * run of either class can be followed by what the patterns require next,
   * so both runs are taken whole.
   */
  function GapWord(s: string, i: nat): (r: Option<(string, nat)>)
    requires i <= |s|
    ensures r.Some? ==> var (w, e) := r.value;
      && i < e <= |s| && IsWord(w) && |w| < e - i && w == s[e - |w|..e]
      && AllSpace(s[i..e - |w|])
      && (e == |s| || !IsWordChar(s[e]))
    ensures r.None? ==> i == |s| || !IsSpace(s[i]) || WordEnd(s, SpaceEnd(s, i)) == SpaceEnd(s, i)
  {
    var a := SpaceEnd(s, i);
    var b := WordEnd(s, a);
    if a == i || b == a then None else Some((s[a..b], b))
  }

  // ---------------------------------------------------------------- resources{...} / accounts{...}

  /** Index of the first `c` at or after `from`. */
  function IndexOfChar(s: string, c: char, from: nat): (r: Option<nat>)
    requires from <= |s|
    ensures r.Some? ==> from <= r.value < |s| && s[r.value] == c && c !in s[from..r.value]
    ensures r.None? ==> c !in s[from..]
    decreases |s| - from
  {
    if from == |s| then None
    else if s[from] == c then Some(from)
    else
      var r := IndexOfChar(s, c, from + 1);
      assert s[from..] == [s[from]] + s[from + 1..];
      assert r.Some? ==> s[from..r.value] == [s[from]] + s[from + 1..r.value];
      r
  }

  /** The pattern `kw\{([^}]*)\}` tried at position `i`: its capture, if it matches there. */
  function BlockAt(s: string, kw: string, i: nat): (r: Option<string>)
    requires i <= |s|
    ensures r.Some? <==> StartsAt(s, i, kw + "{") && '}' in s[i + |kw| + 1..]
    ensures r.Some? ==> '}' !in r.value && StartsAt(s, i, kw + "{" + r.value + "}")
  {
    if !StartsAt(s, i, kw + "{") then None
    else
      var from := i + |kw| + 1;
      match IndexOfChar(s, '}', from)
      case None => None
      case Some(j) =>
        assert s[i..j + 1] == s[i..from] + s[from..j] + "}";
        Some(s[from..j])
  }

  /** `re.search` of the block pattern from `pos`: the leftmost start and its capture. */
  function SearchBlock(s: string, kw: string, pos: nat): (r: Option<(nat, string)>)
    requires pos <= |s|
    ensures r.Some? ==> pos <= r.value.0 <= |s| && BlockAt(s, kw, r.value.0) == Some(r.value.1)
    ensures r.Some? ==> forall j :: pos <= j < r.value.0 ==> BlockAt(s, kw, j).None?
    ensures r.None? ==> forall j :: pos <= j <= |s| ==> BlockAt(s, kw, j).None?
    decreases |s| - pos
  {
    match BlockAt(s, kw, pos)
    case Some(c) => Some((pos, c))
    case None => if pos < |s| then SearchBlock(s, kw, pos + 1) else None
  }

  // ---------------------------------------------------------------- define_resource

  /** The four groups of `define_resource:\s+(\w+)\s+\[(.*?)\]\s+&&\s+(\w+)\s+&&\s+(\w+)`. */
  datatype ResourceCapture = ResourceCapture(name: string, perms: string, uri: string, table: string)

  const ResourceKeyword := "define_resource:"

  /** `\s+&&\s+(\w+)` at `i`: the captured word and the end of the match. */
  function AndWordAt(s: string, i: nat): (r: Option<(string, nat)>)
    requires i <= |s|
    ensures r.Some? ==> var (w, e) := r.value;
      i < e <= |s| && IsWord(w) && (e == |s| || !IsWordChar(s[e]))
  {
    var a := SpaceEnd(s, i);
    if a == i || !StartsAt(s, a, "&&") then None else GapWord(s, a + 2)
  }

  /** `\]\s+&&\s+(\w+)\s+&&\s+(\w+)` at `j`: the URI and table groups and the end of the match. */
  function ResourceTailAt(s: string, j: nat): (r: Option<(string, string, nat)>)
    requires j <= |s|
    ensures r.Some? ==> var (uri, table, e) := r.value;
      && j < e <= |s| && IsWord(uri) && IsWord(table)
      && (e == |s| || !IsWordChar(s[e]))
  {
    if !StartsAt(s, j, "]") then None
    else match AndWordAt(s, j + 1)
      case None => None
      case Some((uri, b)) =>
        match AndWordAt(s, b)
        case None => None
        case Some((table, e)) => Some((uri, table, e))
  }

  /**
   * The lazy group `(.*?)` followed by the tail: the first position `k` at or after `j`
   * where the tail matches, provided no newline lies in between.
   */
  function LazyPermsEnd(s: string, j: nat): (r: Option<(nat, string, string, nat)>)
    requires j <= |s|
    ensures r.Some? ==> j <= r.value.0 <= |s| && (forall t :: j <= t < r.value.0 ==> s[t] != '\n')
    ensures r.Some? ==> ResourceTailAt(s, r.value.0) == Some((r.value.1, r.value.2, r.value.3))
    decreases |s| - j
  {
    var tail := ResourceTailAt(s, j);
    if tail.Some? then Some((j, tail.value.0, tail.value.1, tail.value.2))
    else if j < |s| && s[j] != '\n' then LazyPermsEnd(s, j + 1)
    else None
  }

  /**
   * The lazy group is as short as it can be: no earlier position reachable without
   * crossing a newline lets the tail match, and when there is no match at all none does.
   */
  lemma {:induction false} LazyPermsEndIsShortest(s: string, j: nat, k': nat)
    requires j <= k' <= |s| && '\n' !in s[j..k']
    ensures LazyPermsEnd(s, j).Some? ==> k' < LazyPermsEnd(s, j).value.0 ==> ResourceTailAt(s, k').None?
    ensures LazyPermsEnd(s, j).None? ==> ResourceTailAt(s, k').None?
    decreases |s| - j
  {
    if ResourceTailAt(s, j).None? && j < k' {
      assert s[j..k'] == [s[j]] + s[j + 1..k'];
      LazyPermsEndIsShortest(s, j + 1, k');
    }
  }

  /** `\[(.*?)\]\s+&&\s+(\w+)\s+&&\s+(\w+)` at `b`: the permission, URI and table groups and the end of the match. */
  function BracketAt(s: string, b: nat): (r: Option<(string, string, string, nat)>)
    requires b <= |s|
    ensures r.Some? ==> var (perms, uri, table, e) := r.value;
      && b < e <= |s| && IsWord(uri) && IsWord(table) && '\n' !in perms
  {
    if !StartsAt(s, b, "[") then None
    else match LazyPermsEnd(s, b + 1)
      case None => None
      case Some((k, uri, table, e)) =>
        Some((s[b + 1..k], uri, table, e))
  }

  /** The resource declaration pattern after its keyword, from `i`: its groups and the end of the match. */
  function ResourceAfterKeyword(s: string, i: nat): (r: Option<(ResourceCapture, nat)>)
    requires i <= |s|
    ensures r.Some? ==> var (m, e) := r.value;
      && i < e <= |s|
      && IsWord(m.name) && IsWord(m.uri) && IsWord(m.table) && '\n' !in m.perms
  {
    match GapWord(s, i)
    case None => None
    case Some((name, a)) =>
      var b := SpaceEnd(s, a);
      if b == a then None
      else match BracketAt(s, b)
        case None => None
        case Some((perms, uri, table, e)) => Some((ResourceCapture(name, perms, uri, table), e))
  }

  /** The resource declaration pattern tried at position `p`: its groups and the end of the match. */
  function MatchResourceAt(s: string, p: nat): (r: Option<(ResourceCapture, nat)>)
    requires p <= |s|
    ensures r.Some? ==> var (m, e) := r.value;
      && p < e <= |s|
      && IsWord(m.name) && IsWord(m.uri) && IsWord(m.table) && '\n' !in m.perms
  {
    if !StartsAt(s, p, ResourceKeyword) then None else ResourceAfterKeyword(s, p + |ResourceKeyword|)
  }

  /** `re.finditer` of the resource pattern from `pos`. */
  function ResourceScan(s: string, pos: nat): (ms: seq<ResourceCapture>)
    requires pos <= |s|
    ensures forall m :: m in ms ==> IsWord(m.name) && IsWord(m.uri) && IsWord(m.table) && '\n' !in m.perms
    decreases |s| - pos
  {
    match MatchResourceAt(s, pos)
    case Some((m, e)) => [m] + ResourceScan(s, e)
    case None => if pos < |s| then ResourceScan(s, pos + 1) else []
  }

  // ---------------------------------------------------------------- define_account

  /** The four groups of `define_account:\s+(\w+),\s+(\w+),\s+(\w+),\s+(\w+)`. */
  datatype AccountCapture = AccountCapture(name: string, roles: string, password: string, email: string)

  const AccountKeyword := "define_account:"

  /** `,\s+(\w+)` at `i`: the captured word and the end of the match. */
  function CommaWordAt(s: string, i: nat): (r: Option<(string, nat)>)
    requires i <= |s|
    ensures r.Some? ==> var (w, e) := r.value;
      i < e <= |s| && IsWord(w) && (e == |s| || !IsWordChar(s[e]))
  {
    if !StartsAt(s, i, ",") then None else GapWord(s, i + 1)
  }

  /** The account declaration pattern after its keyword, from `i`: its groups and the end of the match. */
  function AccountAfterKeyword(s: string, i: nat): (r: Option<(AccountCapture, nat)>)
    requires i <= |s|
    ensures r.Some? ==> var (m, e) := r.value;
      && i < e <= |s|
      && IsWord(m.name) && IsWord(m.roles) && IsWord(m.password) && IsWord(m.email)
  {
    match GapWord(s, i)
    case None => None
    case Some((name, a)) =>
      match CommaWordAt(s, a)
      case None => None
      case Some((roles, b)) =>
        match CommaWordAt(s, b)
        case None => None
        case Some((password, c)) =>
          match CommaWordAt(s, c)
          case None => None
          case Some((email, e)) => Some((AccountCapture(name, roles, password, email), e))
  }

  /** The account declaration pattern tried at position `p`: its groups and the end of the match. */
  function MatchAccountAt(s: string, p: nat): (r: Option<(AccountCapture, nat)>)
    requires p <= |s|
    ensures r.Some? ==> var (m, e) := r.value;
      && p < e <= |s|
      && IsWord(m.name) && IsWord(m.roles) && IsWord(m.password) && IsWord(m.email)
  {
    if !StartsAt(s, p, AccountKeyword) then None else AccountAfterKeyword(s, p + |AccountKeyword|)
  }

  /** `re.finditer` of the account pattern from `pos`. */
  function AccountScan(s: string, pos: nat): (ms: seq<AccountCapture>)
    requires pos <= |s|
    ensures forall m :: m in ms ==> IsWord(m.name) && IsWord(m.roles) && IsWord(m.password) && IsWord(m.email)
    decreases |s| - pos
  {
    match MatchAccountAt(s, pos)
    case Some((m, e)) => [m] + AccountScan(s, e)
    case None => if pos < |s| then AccountScan(s, pos + 1) else []
  }
}
