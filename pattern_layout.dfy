/**
 * What the hand-written matchers accept, stated over the text itself: a match
 * at `p` is exactly the keyword, the whitespace gaps and the groups laid out
 * as the regular expression demands (soundness), and every such layout is
 * matched with those groups (completeness). The scans are characterised as
 * leftmost match, then resume at the end of that match.
 */
module PatternLayout {
  import opened Wrappers
  import opened PyStr
  import opened Patterns

  /** A run matched by `\s+`. */
  predicate IsGap(g: string) {
    |g| > 0 && AllSpace(g)
  }

  // ---------------------------------------------------------------- slices

  lemma Glue(s: string, i: nat, j: nat, k: nat)
    requires i <= j <= k <= |s|
    ensures s[i..k] == s[i..j] + s[j..k]
  {
    assert s[i..k] == s[i..j] + s[j..k];
  }

  /** A slice equal to `a + rest` starts with a slice equal to `a`, followed by one equal to `rest`. */
  lemma Peel(s: string, i: nat, a: string, rest: string)
    requires i + |a| + |rest| <= |s| && s[i..i + |a| + |rest|] == a + rest
    ensures s[i..i + |a|] == a && s[i + |a|..i + |a| + |rest|] == rest
  {
    assert s[i..i + |a|] == s[i..i + |a| + |rest|][..|a|];
    assert s[i + |a|..i + |a| + |rest|] == s[i..i + |a| + |rest|][|a|..];
    assert (a + rest)[..|a|] == a;
    assert (a + rest)[|a|..] == rest;
  }

  // ---------------------------------------------------------------- runs

  /** A whitespace run followed by a non-space character is exactly the run `\s+` takes. */
  lemma SpaceEndAt(s: string, i: nat, n: nat)
    requires i + n <= |s| && AllSpace(s[i..i + n]) && (i + n == |s| || !IsSpace(s[i + n]))
    ensures SpaceEnd(s, i) == i + n
  {
    var r := SpaceEnd(s, i);
    assert forall k :: i <= k < i + n ==> IsSpace(s[k]) by {
      forall k | i <= k < i + n ensures IsSpace(s[k]) { assert s[k] == s[i..i + n][k - i]; }
    }
    assert forall k :: i <= k < r ==> IsSpace(s[k]) by {
      forall k | i <= k < r ensures IsSpace(s[k]) { assert s[k] == s[i..r][k - i]; }
    }
  }

  /** A word run followed by a non-word character is exactly the run `\w+` takes. */
  lemma WordEndAt(s: string, i: nat, n: nat)
    requires i + n <= |s| && AllWord(s[i..i + n]) && (i + n == |s| || !IsWordChar(s[i + n]))
    ensures WordEnd(s, i) == i + n
  {
    var r := WordEnd(s, i);
    assert forall k :: i <= k < i + n ==> IsWordChar(s[k]) by {
      forall k | i <= k < i + n ensures IsWordChar(s[k]) { assert s[k] == s[i..i + n][k - i]; }
    }
    assert forall k :: i <= k < r ==> IsWordChar(s[k]) by {
      forall k | i <= k < r ensures IsWordChar(s[k]) { assert s[k] == s[i..r][k - i]; }
    }
  }

  /** `\s+(\w+)` matches a gap followed by a whole word, and captures that word. */
  lemma GapWordAt(s: string, i: nat, g: string, w: string)
    requires i + |g| + |w| <= |s|
    requires s[i..i + |g|] == g && s[i + |g|..i + |g| + |w|] == w
    requires IsGap(g) && IsWord(w)
    requires i + |g| + |w| == |s| || !IsWordChar(s[i + |g| + |w|])
    ensures GapWord(s, i) == Some((w, i + |g| + |w|))
  {
    var a := i + |g|;
    assert s[a] == w[0];
    SpaceEndAt(s, i, |g|);
    WordEndAt(s, a, |w|);
  }

  /** What a `\s+(\w+)` match consists of: whitespace, then the captured word, ending the match. */
  lemma GapWordParts(s: string, i: nat, w: string, e: nat)
    requires i <= |s| && GapWord(s, i) == Some((w, e))
    ensures i + |w| < e <= |s| && IsGap(s[i..e - |w|]) && s[e - |w|..e] == w
  {
  }

  /** A non-empty run up to where `\s+` stops is a gap. */
  lemma SpaceEndGap(s: string, a: nat, b: nat)
    requires a < b <= |s| && SpaceEnd(s, a) == b
    ensures IsGap(s[a..b])
  {
  }

  // ---------------------------------------------------------------- the resource tail

  /** The text `\s+&&\s+(\w+)` matches: a gap, `&&`, a gap and the word. */
  function AndText(ga: string, gb: string, w: string): string {
    ga + ("&&" + (gb + w))
  }

  /** A match of `\s+&&\s+(\w+)` is a gap, `&&`, a gap and the captured word. */
  lemma AndWordSound(s: string, i: nat)
    requires i <= |s| && AndWordAt(s, i).Some?
    ensures var (w, e) := AndWordAt(s, i).value;
      exists ga, gb :: IsGap(ga) && IsGap(gb) && s[i..e] == AndText(ga, gb, w)
  {
    var (w, e) := AndWordAt(s, i).value;
    var a := SpaceEnd(s, i);
    var ga, gb := s[i..a], s[a + 2..e - |w|];
    Glue(s, a + 2, e - |w|, e);
    Glue(s, a, a + 2, e);
    Glue(s, i, a, e);
    assert s[i..e] == AndText(ga, gb, w);
  }

  /** A gap, `&&`, a gap and a whole word are matched by `\s+&&\s+(\w+)`, capturing that word. */
  lemma AndWordComplete(s: string, i: nat, ga: string, gb: string, w: string)
    requires i + |AndText(ga, gb, w)| <= |s| && s[i..i + |AndText(ga, gb, w)|] == AndText(ga, gb, w)
    requires IsGap(ga) && IsGap(gb) && IsWord(w)
    requires i + |AndText(ga, gb, w)| == |s| || !IsWordChar(s[i + |AndText(ga, gb, w)|])
    ensures AndWordAt(s, i) == Some((w, i + |AndText(ga, gb, w)|))
  {
    var x := i + |ga|;
    var e := x + 2 + |gb| + |w|;
    assert |AndText(ga, gb, w)| == e - i;
    assert s[i..x] == ga && StartsAt(s, x, "&&") && s[x + 2..x + 2 + |gb|] == gb && s[x + 2 + |gb|..e] == w by {
      Peel(s, i, ga, "&&" + (gb + w));
      Peel(s, x, "&&", gb + w);
      Peel(s, x + 2, gb, w);
    }
    AndWordPieces(s, i, ga, gb, w);
    AndWordSteps(s, i, x, w, e);
  }

  lemma AndWordPieces(s: string, i: nat, ga: string, gb: string, w: string)
    requires i + |ga| + 2 + |gb| + |w| <= |s| && IsGap(ga) && IsGap(gb) && IsWord(w)
    requires s[i..i + |ga|] == ga && StartsAt(s, i + |ga|, "&&")
    requires s[i + |ga| + 2..i + |ga| + 2 + |gb|] == gb && s[i + |ga| + 2 + |gb|..i + |ga| + 2 + |gb| + |w|] == w
    requires i + |ga| + 2 + |gb| + |w| == |s| || !IsWordChar(s[i + |ga| + 2 + |gb| + |w|])
    ensures SpaceEnd(s, i) == i + |ga| && GapWord(s, i + |ga| + 2) == Some((w, i + |ga| + 2 + |gb| + |w|))
  {
    var x := i + |ga|;
    assert s[x] == s[x..x + 2][0];
    SpaceEndAt(s, i, |ga|);
    GapWordAt(s, x + 2, gb, w);
  }

  lemma AndWordSteps(s: string, i: nat, x: nat, w: string, e: nat)
    requires i < x && x + 2 <= e <= |s|
    requires SpaceEnd(s, i) == x && StartsAt(s, x, "&&") && GapWord(s, x + 2) == Some((w, e))
    ensures AndWordAt(s, i) == Some((w, e))
  {
  }

  /** The whitespace runs of `\]\s+&&\s+(\w+)\s+&&\s+(\w+)`, in order. */
  datatype TailGaps = TailGaps(g1: string, g2: string, g3: string, g4: string)

  predicate TailGapsOk(g: TailGaps) {
    IsGap(g.g1) && IsGap(g.g2) && IsGap(g.g3) && IsGap(g.g4)
  }

  function TailText(uri: string, table: string, g: TailGaps): string {
    "]" + (AndText(g.g1, g.g2, uri) + AndText(g.g3, g.g4, table))
  }

  /** A tail match is the text `]`, gap, `&&`, gap, URI, gap, `&&`, gap, table. */
  lemma TailSound(s: string, j: nat)
    requires j <= |s| && ResourceTailAt(s, j).Some?
    ensures var (uri, table, e) := ResourceTailAt(s, j).value;
      exists g :: TailGapsOk(g) && s[j..e] == TailText(uri, table, g)
  {
    var (uri, table, e) := ResourceTailAt(s, j).value;
    var b := AndWordAt(s, j + 1).value.1;
    AndWordSound(s, j + 1);
    var g1, g2 :| IsGap(g1) && IsGap(g2) && s[j + 1..b] == AndText(g1, g2, uri);
    AndWordSound(s, b);
    var g3, g4 :| IsGap(g3) && IsGap(g4) && s[b..e] == AndText(g3, g4, table);
    var g := TailGaps(g1, g2, g3, g4);
    Glue(s, j + 1, b, e);
    Glue(s, j, j + 1, e);
    assert s[j..e] == TailText(uri, table, g);
  }

  /** Every tail laid out as the pattern demands, with the table run maximal, is matched with those groups. */
  lemma TailComplete(s: string, j: nat, uri: string, table: string, g: TailGaps)
    requires j + |TailText(uri, table, g)| <= |s| && s[j..j + |TailText(uri, table, g)|] == TailText(uri, table, g)
    requires TailGapsOk(g) && IsWord(uri) && IsWord(table)
    requires j + |TailText(uri, table, g)| == |s| || !IsWordChar(s[j + |TailText(uri, table, g)|])
    ensures ResourceTailAt(s, j) == Some((uri, table, j + |TailText(uri, table, g)|))
  {
    var first, second := AndText(g.g1, g.g2, uri), AndText(g.g3, g.g4, table);
    var b := j + 1 + |first|;
    var e := b + |second|;
    assert StartsAt(s, j, "]") && s[j + 1..b] == first && s[b..e] == second by {
      Peel(s, j, "]", first + second);
      Peel(s, j + 1, first, second);
    }
    TailPieces(s, j, b, e, uri, table, g);
  }

  lemma TailPieces(s: string, j: nat, b: nat, e: nat, uri: string, table: string, g: TailGaps)
    requires TailGapsOk(g) && IsWord(uri) && IsWord(table)
    requires b == j + 1 + |AndText(g.g1, g.g2, uri)| && e == b + |AndText(g.g3, g.g4, table)| <= |s|
    requires StartsAt(s, j, "]") && s[j + 1..b] == AndText(g.g1, g.g2, uri) && s[b..e] == AndText(g.g3, g.g4, table)
    requires e == |s| || !IsWordChar(s[e])
    ensures e == j + |TailText(uri, table, g)| && ResourceTailAt(s, j) == Some((uri, table, e))
  {
    assert s[b] == g.g3[0];
    AndWordComplete(s, j + 1, g.g1, g.g2, uri);
    AndWordComplete(s, b, g.g3, g.g4, table);
  }

  // ---------------------------------------------------------------- define_resource

  /** A permission group the lazy `(.*?)` can take whole: no newline, and no `]` to stop at earlier. */
  lemma {:induction false} LazyPermsEndAt(s: string, j: nat, k: nat)
    requires j <= k <= |s| && ResourceTailAt(s, k).Some?
    requires forall t :: j <= t < k ==> s[t] != '\n' && s[t] != ']'
    ensures LazyPermsEnd(s, j).Some? && LazyPermsEnd(s, j).value.0 == k
    decreases k - j
  {
    if j < k {
      NoTailAt(s, j);
      LazyPermsEndAt(s, j + 1, k);
    }
  }

  /** The tail starts with `]`, so it cannot match at any other character. */
  lemma NoTailAt(s: string, j: nat)
    requires j < |s| && s[j] != ']'
    ensures ResourceTailAt(s, j).None?
  {
    assert s[j..j + 1][0] == s[j];
  }

  /** The text `\[(.*?)\]\s+&&\s+(\w+)\s+&&\s+(\w+)` matches with these groups. */
  function BracketText(perms: string, uri: string, table: string, g: TailGaps): string {
    "[" + (perms + TailText(uri, table, g))
  }

  lemma BracketSound(s: string, b: nat)
    requires b <= |s| && BracketAt(s, b).Some?
    ensures var (perms, uri, table, e) := BracketAt(s, b).value;
      exists g :: TailGapsOk(g) && s[b..e] == BracketText(perms, uri, table, g)
  {
    var (perms, uri, table, e) := BracketAt(s, b).value;
    var k := LazyPermsEnd(s, b + 1).value.0;
    TailSound(s, k);
    var g :| TailGapsOk(g) && s[k..e] == TailText(uri, table, g);
    Glue(s, b + 1, k, e);
    Glue(s, b, b + 1, e);
    assert s[b..e] == BracketText(perms, uri, table, g);
  }

  lemma BracketComplete(s: string, b: nat, perms: string, uri: string, table: string, g: TailGaps)
    requires b + |BracketText(perms, uri, table, g)| <= |s|
    requires s[b..b + |BracketText(perms, uri, table, g)|] == BracketText(perms, uri, table, g)
    requires TailGapsOk(g) && IsWord(uri) && IsWord(table) && '\n' !in perms && ']' !in perms
    requires b + |BracketText(perms, uri, table, g)| == |s| || !IsWordChar(s[b + |BracketText(perms, uri, table, g)|])
    ensures BracketAt(s, b) == Some((perms, uri, table, b + |BracketText(perms, uri, table, g)|))
  {
    var tail := TailText(uri, table, g);
    var k := b + 1 + |perms|;
    assert StartsAt(s, b, "[") && s[b + 1..k] == perms && s[k..k + |tail|] == tail by {
      Peel(s, b, "[", perms + tail);
      Peel(s, b + 1, perms, tail);
    }
    TailComplete(s, k, uri, table, g);
    forall t | b + 1 <= t < k ensures s[t] != '\n' && s[t] != ']' {
      assert s[t] == perms[t - b - 1];
    }
    LazyPermsEndAt(s, b + 1, k);
  }

  /** The whitespace runs of the resource declaration pattern, in order. */
  datatype ResourceGaps = ResourceGaps(g1: string, g2: string, tail: TailGaps)

  predicate ResourceGapsOk(g: ResourceGaps) {
    IsGap(g.g1) && IsGap(g.g2) && TailGapsOk(g.tail)
  }

  /** What follows the keyword: a gap, the name, a gap and the bracketed rest. */
  function ResourceBody(m: ResourceCapture, g: ResourceGaps): string {
    g.g1 + (m.name + (g.g2 + BracketText(m.perms, m.uri, m.table, g.tail)))
  }

  /** The text `define_resource:\s+(\w+)\s+\[(.*?)\]\s+&&\s+(\w+)\s+&&\s+(\w+)` matches with groups `m`. */
  function ResourceText(m: ResourceCapture, g: ResourceGaps): string {
    ResourceKeyword + ResourceBody(m, g)
  }

  lemma ResourceBodySound(s: string, i: nat)
    requires i <= |s| && ResourceAfterKeyword(s, i).Some?
    ensures var (m, e) := ResourceAfterKeyword(s, i).value;
      exists g :: ResourceGapsOk(g) && s[i..e] == ResourceBody(m, g)
  {
    var (m, e) := ResourceAfterKeyword(s, i).value;
    var a := GapWord(s, i).value.1;
    ResourceBodyGlue(s, i, a, SpaceEnd(s, a), e, m);
  }

  lemma ResourceBodyGlue(s: string, i: nat, a: nat, b: nat, e: nat, m: ResourceCapture)
    requires i <= a < b <= e <= |s|
    requires GapWord(s, i) == Some((m.name, a)) && SpaceEnd(s, a) == b
    requires BracketAt(s, b) == Some((m.perms, m.uri, m.table, e))
    ensures exists g :: ResourceGapsOk(g) && s[i..e] == ResourceBody(m, g)
  {
    BracketSound(s, b);
    var tg :| TailGapsOk(tg) && s[b..e] == BracketText(m.perms, m.uri, m.table, tg);
    ResourceBodyGaps(s, i, a, b, e, m, tg);
  }

  lemma ResourceBodyGaps(s: string, i: nat, a: nat, b: nat, e: nat, m: ResourceCapture, tg: TailGaps)
    requires i <= a < b <= e <= |s|
    requires GapWord(s, i) == Some((m.name, a)) && SpaceEnd(s, a) == b
    requires TailGapsOk(tg) && s[b..e] == BracketText(m.perms, m.uri, m.table, tg)
    ensures exists g :: ResourceGapsOk(g) && s[i..e] == ResourceBody(m, g)
  {
    GapWordParts(s, i, m.name, a);
    SpaceEndGap(s, a, b);
    ResourceBodyJoin(s, i, a, b, e, m, tg);
  }

  lemma ResourceBodyJoin(s: string, i: nat, a: nat, b: nat, e: nat, m: ResourceCapture, tg: TailGaps)
    requires i + |m.name| < a < b <= e <= |s|
    requires IsGap(s[i..a - |m.name|]) && s[a - |m.name|..a] == m.name && IsGap(s[a..b])
    requires TailGapsOk(tg) && s[b..e] == BracketText(m.perms, m.uri, m.table, tg)
    ensures exists g :: ResourceGapsOk(g) && s[i..e] == ResourceBody(m, g)
  {
    var g := ResourceGaps(s[i..a - |m.name|], s[a..b], tg);
    Glue(s, a, b, e);
    Glue(s, a - |m.name|, a, e);
    Glue(s, i, a - |m.name|, e);
    assert s[i..e] == ResourceBody(m, g);
  }

  lemma ResourceBodyComplete(s: string, i: nat, m: ResourceCapture, g: ResourceGaps)
    requires i + |ResourceBody(m, g)| <= |s| && s[i..i + |ResourceBody(m, g)|] == ResourceBody(m, g)
    requires ResourceGapsOk(g) && IsWord(m.name) && IsWord(m.uri) && IsWord(m.table)
    requires '\n' !in m.perms && ']' !in m.perms
    requires i + |ResourceBody(m, g)| == |s| || !IsWordChar(s[i + |ResourceBody(m, g)|])
    ensures ResourceAfterKeyword(s, i) == Some((m, i + |ResourceBody(m, g)|))
  {
    var bracket := BracketText(m.perms, m.uri, m.table, g.tail);
    var a := i + |g.g1| + |m.name|;
    var b := a + |g.g2|;
    var e := b + |bracket|;
    assert s[i..i + |g.g1|] == g.g1 && s[i + |g.g1|..a] == m.name && s[a..b] == g.g2 && s[b..e] == bracket by {
      Peel(s, i, g.g1, m.name + (g.g2 + bracket));
      Peel(s, i + |g.g1|, m.name, g.g2 + bracket);
      Peel(s, a, g.g2, bracket);
    }
    ResourceBodyPieces(s, i, a, b, e, m, g);
  }

  lemma ResourceBodyPieces(s: string, i: nat, a: nat, b: nat, e: nat, m: ResourceCapture, g: ResourceGaps)
    requires ResourceGapsOk(g) && IsWord(m.name) && IsWord(m.uri) && IsWord(m.table)
    requires '\n' !in m.perms && ']' !in m.perms
    requires a == i + |g.g1| + |m.name| && b == a + |g.g2|
    requires e == b + |BracketText(m.perms, m.uri, m.table, g.tail)| <= |s|
    requires s[i..i + |g.g1|] == g.g1 && s[i + |g.g1|..a] == m.name && s[a..b] == g.g2
    requires s[b..e] == BracketText(m.perms, m.uri, m.table, g.tail)
    requires e == |s| || !IsWordChar(s[e])
    ensures e == i + |ResourceBody(m, g)| && ResourceAfterKeyword(s, i) == Some((m, e))
  {
    assert s[a] == g.g2[0];
    assert s[b] == s[b..e][0];
    GapWordAt(s, i, g.g1, m.name);
    SpaceEndAt(s, a, |g.g2|);
    BracketComplete(s, b, m.perms, m.uri, m.table, g.tail);
    ResourceBodySteps(s, i, a, b, e, m);
  }

  lemma ResourceBodySteps(s: string, i: nat, a: nat, b: nat, e: nat, m: ResourceCapture)
    requires i <= a < b <= e <= |s|
    requires GapWord(s, i) == Some((m.name, a)) && SpaceEnd(s, a) == b
    requires BracketAt(s, b) == Some((m.perms, m.uri, m.table, e))
    ensures ResourceAfterKeyword(s, i) == Some((m, e))
  {
  }

  /** A resource match is the keyword, a gap, the name, a gap, `[`, the permissions and the tail. */
  lemma ResourceSound(s: string, p: nat)
    requires p <= |s| && MatchResourceAt(s, p).Some?
    ensures var (m, e) := MatchResourceAt(s, p).value;
      exists g :: ResourceGapsOk(g) && s[p..e] == ResourceText(m, g)
  {
    var (m, e) := MatchResourceAt(s, p).value;
    var n := |ResourceKeyword|;
    ResourceBodySound(s, p + n);
    var g :| ResourceGapsOk(g) && s[p + n..e] == ResourceBody(m, g);
    Glue(s, p, p + n, e);
    assert s[p..e] == ResourceText(m, g);
  }

  /**
   * Every resource declaration laid out as the pattern demands is matched with its groups,
   * provided the table run is maximal and the permission text holds no newline and no `]`
   * (a `]` would let the lazy group stop earlier).
   */
  lemma ResourceComplete(s: string, p: nat, m: ResourceCapture, g: ResourceGaps)
    requires p + |ResourceText(m, g)| <= |s| && s[p..p + |ResourceText(m, g)|] == ResourceText(m, g)
    requires ResourceGapsOk(g) && IsWord(m.name) && IsWord(m.uri) && IsWord(m.table)
    requires '\n' !in m.perms && ']' !in m.perms
    requires p + |ResourceText(m, g)| == |s| || !IsWordChar(s[p + |ResourceText(m, g)|])
    ensures MatchResourceAt(s, p) == Some((m, p + |ResourceText(m, g)|))
  {
    var n := |ResourceKeyword|;
    var e := p + n + |ResourceBody(m, g)|;
    assert StartsAt(s, p, ResourceKeyword) && s[p + n..e] == ResourceBody(m, g) by {
      Peel(s, p, ResourceKeyword, ResourceBody(m, g));
    }
    ResourcePieces(s, p, e, m, g);
  }

  lemma ResourcePieces(s: string, p: nat, e: nat, m: ResourceCapture, g: ResourceGaps)
    requires e == p + |ResourceKeyword| + |ResourceBody(m, g)| <= |s|
    requires StartsAt(s, p, ResourceKeyword) && s[p + |ResourceKeyword|..e] == ResourceBody(m, g)
    requires ResourceGapsOk(g) && IsWord(m.name) && IsWord(m.uri) && IsWord(m.table)
    requires '\n' !in m.perms && ']' !in m.perms
    requires e == |s| || !IsWordChar(s[e])
    ensures MatchResourceAt(s, p) == Some((m, e))
  {
    ResourceBodyComplete(s, p + |ResourceKeyword|, m, g);
    MatchResourceSteps(s, p, m, e);
  }

  lemma MatchResourceSteps(s: string, p: nat, m: ResourceCapture, e: nat)
    requires p + |ResourceKeyword| <= e <= |s| && StartsAt(s, p, ResourceKeyword)
    requires ResourceAfterKeyword(s, p + |ResourceKeyword|) == Some((m, e))
    ensures MatchResourceAt(s, p) == Some((m, e))
  {
  }

  // ---------------------------------------------------------------- define_account

  /** The text `,\s+(\w+)` matches: a comma, a gap and the word. */
  function CommaText(g: string, w: string): string {
    "," + (g + w)
  }

  lemma CommaWordSound(s: string, i: nat)
    requires i <= |s| && CommaWordAt(s, i).Some?
    ensures var (w, e) := CommaWordAt(s, i).value;
      exists g :: IsGap(g) && s[i..e] == CommaText(g, w)
  {
    var (w, e) := CommaWordAt(s, i).value;
    var g := s[i + 1..e - |w|];
    Glue(s, i + 1, e - |w|, e);
    Glue(s, i, i + 1, e);
    assert s[i..e] == CommaText(g, w);
  }

  lemma CommaWordComplete(s: string, i: nat, g: string, w: string)
    requires i + |CommaText(g, w)| <= |s| && s[i..i + |CommaText(g, w)|] == CommaText(g, w)
    requires IsGap(g) && IsWord(w)
    requires i + |CommaText(g, w)| == |s| || !IsWordChar(s[i + |CommaText(g, w)|])
    ensures CommaWordAt(s, i) == Some((w, i + |CommaText(g, w)|))
  {
    Peel(s, i, ",", g + w);
    Peel(s, i + 1, g, w);
    GapWordAt(s, i + 1, g, w);
  }

  /** The whitespace runs of the account declaration pattern, in order. */
  datatype AccountGaps = AccountGaps(g1: string, g2: string, g3: string, g4: string)

  predicate AccountGapsOk(g: AccountGaps) {
    IsGap(g.g1) && IsGap(g.g2) && IsGap(g.g3) && IsGap(g.g4)
  }

  /** What follows the keyword: a gap, the name, and three comma-gap-word groups. */
  function AccountBody(m: AccountCapture, g: AccountGaps): string {
    (g.g1 + m.name) + (CommaText(g.g2, m.roles) + (CommaText(g.g3, m.password) + CommaText(g.g4, m.email)))
  }

  /** The text `define_account:\s+(\w+),\s+(\w+),\s+(\w+),\s+(\w+)` matches with groups `m`. */
  function AccountText(m: AccountCapture, g: AccountGaps): string {
    AccountKeyword + AccountBody(m, g)
  }

  lemma AccountBodySound(s: string, i: nat)
    requires i <= |s| && AccountAfterKeyword(s, i).Some?
    ensures var (m, e) := AccountAfterKeyword(s, i).value;
      exists g :: AccountGapsOk(g) && s[i..e] == AccountBody(m, g)
  {
    var (m, e) := AccountAfterKeyword(s, i).value;
    var a := GapWord(s, i).value.1;
    var b := CommaWordAt(s, a).value.1;
    var c := CommaWordAt(s, b).value.1;
    CommaWordSound(s, a);
    var g2 :| IsGap(g2) && s[a..b] == CommaText(g2, m.roles);
    CommaWordSound(s, b);
    var g3 :| IsGap(g3) && s[b..c] == CommaText(g3, m.password);
    CommaWordSound(s, c);
    var g4 :| IsGap(g4) && s[c..e] == CommaText(g4, m.email);
    AccountBodyGlue(s, i, a, b, c, e, m, AccountGaps(s[i..a - |m.name|], g2, g3, g4));
  }

  lemma AccountBodyGlue(s: string, i: nat, a: nat, b: nat, c: nat, e: nat, m: AccountCapture, g: AccountGaps)
    requires i + |m.name| < a <= b <= c <= e <= |s| && AccountGapsOk(g)
    requires s[i..a - |m.name|] == g.g1 && s[a - |m.name|..a] == m.name
    requires s[a..b] == CommaText(g.g2, m.roles) && s[b..c] == CommaText(g.g3, m.password)
    requires s[c..e] == CommaText(g.g4, m.email)
    ensures s[i..e] == AccountBody(m, g)
  {
    Glue(s, b, c, e);
    Glue(s, a, b, e);
    Glue(s, i, a - |m.name|, a);
    Glue(s, i, a, e);
  }

  lemma AccountBodyComplete(s: string, i: nat, m: AccountCapture, g: AccountGaps)
    requires i + |AccountBody(m, g)| <= |s| && s[i..i + |AccountBody(m, g)|] == AccountBody(m, g)
    requires AccountGapsOk(g) && IsWord(m.name) && IsWord(m.roles) && IsWord(m.password) && IsWord(m.email)
    requires i + |AccountBody(m, g)| == |s| || !IsWordChar(s[i + |AccountBody(m, g)|])
    ensures AccountAfterKeyword(s, i) == Some((m, i + |AccountBody(m, g)|))
  {
    var t2, t3, t4 := CommaText(g.g2, m.roles), CommaText(g.g3, m.password), CommaText(g.g4, m.email);
    var a := i + |g.g1| + |m.name|;
    var b := a + |t2|;
    var c := b + |t3|;
    var e := c + |t4|;
    assert e == i + |AccountBody(m, g)|;
    assert s[i..i + |g.g1|] == g.g1 && s[i + |g.g1|..a] == m.name
           && s[a..b] == t2 && s[b..c] == t3 && s[c..e] == t4 by {
      Peel(s, i, g.g1 + m.name, t2 + (t3 + t4));
      Peel(s, i, g.g1, m.name);
      Peel(s, a, t2, t3 + t4);
      Peel(s, b, t3, t4);
    }
    AccountBodyPieces(s, i, a, b, c, e, m, g);
    AccountBodySteps(s, i, a, b, c, e, m);
  }

  lemma AccountBodyPieces(s: string, i: nat, a: nat, b: nat, c: nat, e: nat, m: AccountCapture, g: AccountGaps)
    requires AccountGapsOk(g) && IsWord(m.name) && IsWord(m.roles) && IsWord(m.password) && IsWord(m.email)
    requires a == i + |g.g1| + |m.name| && b == a + |CommaText(g.g2, m.roles)|
    requires c == b + |CommaText(g.g3, m.password)| && e == c + |CommaText(g.g4, m.email)| <= |s|
    requires s[i..i + |g.g1|] == g.g1 && s[i + |g.g1|..a] == m.name
    requires s[a..b] == CommaText(g.g2, m.roles) && s[b..c] == CommaText(g.g3, m.password)
    requires s[c..e] == CommaText(g.g4, m.email)
    requires e == |s| || !IsWordChar(s[e])
    ensures GapWord(s, i) == Some((m.name, a)) && CommaWordAt(s, a) == Some((m.roles, b))
    ensures CommaWordAt(s, b) == Some((m.password, c)) && CommaWordAt(s, c) == Some((m.email, e))
  {
    assert s[a] == s[a..b][0];
    GapWordAt(s, i, g.g1, m.name);
    AccountCommaPieces(s, a, b, c, e, g, m);
  }

  lemma AccountCommaPieces(s: string, a: nat, b: nat, c: nat, e: nat, g: AccountGaps, m: AccountCapture)
    requires AccountGapsOk(g) && IsWord(m.roles) && IsWord(m.password) && IsWord(m.email)
    requires b == a + |CommaText(g.g2, m.roles)| && c == b + |CommaText(g.g3, m.password)|
    requires e == c + |CommaText(g.g4, m.email)| <= |s|
    requires s[a..b] == CommaText(g.g2, m.roles) && s[b..c] == CommaText(g.g3, m.password)
    requires s[c..e] == CommaText(g.g4, m.email)
    requires e == |s| || !IsWordChar(s[e])
    ensures CommaWordAt(s, a) == Some((m.roles, b))
    ensures CommaWordAt(s, b) == Some((m.password, c)) && CommaWordAt(s, c) == Some((m.email, e))
  {
    assert s[b] == s[b..c][0];
    CommaWordComplete(s, a, g.g2, m.roles);
    assert s[c] == s[c..e][0];
    CommaWordComplete(s, b, g.g3, m.password);
    CommaWordComplete(s, c, g.g4, m.email);
  }

  lemma AccountBodySteps(s: string, i: nat, a: nat, b: nat, c: nat, e: nat, m: AccountCapture)
    requires i <= a <= b <= c <= e <= |s|
    requires GapWord(s, i) == Some((m.name, a)) && CommaWordAt(s, a) == Some((m.roles, b))
    requires CommaWordAt(s, b) == Some((m.password, c)) && CommaWordAt(s, c) == Some((m.email, e))
    ensures AccountAfterKeyword(s, i) == Some((m, e))
  {
  }

  /** An account match is the keyword, a gap, the name, and three comma-gap-word groups. */
  lemma AccountSound(s: string, p: nat)
    requires p <= |s| && MatchAccountAt(s, p).Some?
    ensures var (m, e) := MatchAccountAt(s, p).value;
      exists g :: AccountGapsOk(g) && s[p..e] == AccountText(m, g)
  {
    var (m, e) := MatchAccountAt(s, p).value;
    var n := |AccountKeyword|;
    AccountBodySound(s, p + n);
    var g :| AccountGapsOk(g) && s[p + n..e] == AccountBody(m, g);
    Glue(s, p, p + n, e);
    assert s[p..e] == AccountText(m, g);
  }

  /** Every account declaration laid out as the pattern demands, with the email run maximal, is matched with its groups. */
  lemma AccountComplete(s: string, p: nat, m: AccountCapture, g: AccountGaps)
    requires p + |AccountText(m, g)| <= |s| && s[p..p + |AccountText(m, g)|] == AccountText(m, g)
    requires AccountGapsOk(g) && IsWord(m.name) && IsWord(m.roles) && IsWord(m.password) && IsWord(m.email)
    requires p + |AccountText(m, g)| == |s| || !IsWordChar(s[p + |AccountText(m, g)|])
    ensures MatchAccountAt(s, p) == Some((m, p + |AccountText(m, g)|))
  {
    var n := |AccountKeyword|;
    var e := p + n + |AccountBody(m, g)|;
    assert StartsAt(s, p, AccountKeyword) && s[p + n..e] == AccountBody(m, g) by {
      Peel(s, p, AccountKeyword, AccountBody(m, g));
    }
    AccountPieces(s, p, e, m, g);
  }

  lemma AccountPieces(s: string, p: nat, e: nat, m: AccountCapture, g: AccountGaps)
    requires e == p + |AccountKeyword| + |AccountBody(m, g)| <= |s|
    requires StartsAt(s, p, AccountKeyword) && s[p + |AccountKeyword|..e] == AccountBody(m, g)
    requires AccountGapsOk(g) && IsWord(m.name) && IsWord(m.roles) && IsWord(m.password) && IsWord(m.email)
    requires e == |s| || !IsWordChar(s[e])
    ensures MatchAccountAt(s, p) == Some((m, e))
  {
    AccountBodyComplete(s, p + |AccountKeyword|, m, g);
    MatchAccountSteps(s, p, m, e);
  }

  lemma MatchAccountSteps(s: string, p: nat, m: AccountCapture, e: nat)
    requires p + |AccountKeyword| <= e <= |s| && StartsAt(s, p, AccountKeyword)
    requires AccountAfterKeyword(s, p + |AccountKeyword|) == Some((m, e))
    ensures MatchAccountAt(s, p) == Some((m, e))
  {
  }

  // ---------------------------------------------------------------- the scans

  /** The leftmost position in `pos..n` where the matcher `f` succeeds, with what it captured and where it ended. */
  function FirstMatch<T>(f: nat -> Option<(T, nat)>, n: nat, pos: nat): (r: Option<(nat, T, nat)>)
    requires pos <= n
    ensures r.Some? ==> pos <= r.value.0 <= n && f(r.value.0) == Some((r.value.1, r.value.2))
    decreases n - pos
  {
    match f(pos)
    case Some((m, e)) => Some((pos, m, e))
    case None => if pos < n then FirstMatch(f, n, pos + 1) else None
  }

  /** No position before the first match matches, and when there is none no position in `pos..n` does. */
  lemma {:induction false} FirstMatchIsLeftmost<T>(f: nat -> Option<(T, nat)>, n: nat, pos: nat)
    requires pos <= n
    ensures FirstMatch(f, n, pos).Some? ==> forall q :: pos <= q < FirstMatch(f, n, pos).value.0 ==> f(q).None?
    ensures FirstMatch(f, n, pos).None? ==> forall q :: pos <= q <= n ==> f(q).None?
    decreases n - pos
  {
    if f(pos).None? && pos < n {
      FirstMatchIsLeftmost(f, n, pos + 1);
    }
  }

  /** The resource pattern tried at every position of `s`. */
  function ResourceMatcher(s: string): nat -> Option<(ResourceCapture, nat)> {
    (q: nat) => if q <= |s| then MatchResourceAt(s, q) else None
  }

  /**
   * `re.finditer` of the resource pattern: the first capture is the match at the leftmost
   * position at or after `pos` where the pattern matches (no skipped position matches),
   * and the scan resumes where that match ended; with no such position it yields nothing.
   */
  lemma {:induction false} ResourceScanFirst(s: string, pos: nat)
    requires pos <= |s|
    ensures var r := FirstMatch(ResourceMatcher(s), |s|, pos);
      && (r.None? ==> ResourceScan(s, pos) == [] && forall q :: pos <= q <= |s| ==> ResourceMatcher(s)(q).None?)
      && (r.Some? ==> var (q, m, e) := r.value;
           && pos <= q <= |s| && ResourceMatcher(s)(q) == Some((m, e))
           && (forall q' :: pos <= q' < q ==> ResourceMatcher(s)(q').None?)
           && ResourceScan(s, pos) == [m] + ResourceScan(s, e))
  {
    FirstMatchIsLeftmost(ResourceMatcher(s), |s|, pos);
    ResourceScanSteps(s, pos);
  }

  lemma {:induction false} ResourceScanSteps(s: string, pos: nat)
    requires pos <= |s|
    ensures ResourceScan(s, pos) == match FirstMatch(ResourceMatcher(s), |s|, pos)
                                    case None => []
                                    case Some((_, m, e)) => [m] + ResourceScan(s, e)
    decreases |s| - pos
  {
    if MatchResourceAt(s, pos).None? && pos < |s| {
      ResourceScanSteps(s, pos + 1);
    }
  }

  /** The account pattern tried at every position of `s`. */
  function AccountMatcher(s: string): nat -> Option<(AccountCapture, nat)> {
    (q: nat) => if q <= |s| then MatchAccountAt(s, q) else None
  }

  /** `re.finditer` of the account pattern, in the same terms as `ResourceScanFirst`. */
  lemma {:induction false} AccountScanFirst(s: string, pos: nat)
    requires pos <= |s|
    ensures var r := FirstMatch(AccountMatcher(s), |s|, pos);
      && (r.None? ==> AccountScan(s, pos) == [] && forall q :: pos <= q <= |s| ==> AccountMatcher(s)(q).None?)
      && (r.Some? ==> var (q, m, e) := r.value;
           && pos <= q <= |s| && AccountMatcher(s)(q) == Some((m, e))
           && (forall q' :: pos <= q' < q ==> AccountMatcher(s)(q').None?)
           && AccountScan(s, pos) == [m] + AccountScan(s, e))
  {
    FirstMatchIsLeftmost(AccountMatcher(s), |s|, pos);
    AccountScanSteps(s, pos);
  }

  lemma {:induction false} AccountScanSteps(s: string, pos: nat)
    requires pos <= |s|
    ensures AccountScan(s, pos) == match FirstMatch(AccountMatcher(s), |s|, pos)
                                   case None => []
                                   case Some((_, m, e)) => [m] + AccountScan(s, e)
    decreases |s| - pos
  {
    if MatchAccountAt(s, pos).None? && pos < |s| {
      AccountScanSteps(s, pos + 1);
    }
  }
}
