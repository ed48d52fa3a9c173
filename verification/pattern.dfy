/** Python `re.search` for the one regex shape the extraction loop uses:
    a literal prefix, one capturing group `([\d.]+)`, and a literal suffix
    (`\$([\d.]+)` at webscraping.py:94 and `Rating: ([\d.]+)/5` at webscraping.py:108).

    `re.search` tries start positions from left to right and, at each one, lets the
    greedy `+` take as many characters as it can, backing off one at a time until the
    suffix matches. So the answer is the leftmost start at which any group length
    works and, at that start, the longest such length. */
module Pattern {
  import opened Wrappers
  import opened Text

  /** A match: where it starts and how long its captured group is. */
  datatype Match = Match(start: nat, len: nat)

  /** `prefix([\d.]+)suffix` matches `s` at `start`, with a group of `len` characters. */
  predicate MatchesAt(s: string, prefix: string, suffix: string, start: int, len: int) {
    && 0 <= start && 1 <= len
    && start + |prefix| + len + |suffix| <= |s|
    && s[start..start + |prefix|] == prefix
    && AllNum(s[start + |prefix|..start + |prefix| + len])
    && s[start + |prefix| + len..start + |prefix| + len + |suffix|] == suffix
  }

  /** No start position and group length gives a match. */
  ghost predicate NoMatch(s: string, prefix: string, suffix: string) {
    forall start, len :: !MatchesAt(s, prefix, suffix, start, len)
  }

  /** No match starts before `m` does. */
  ghost predicate Leftmost(s: string, prefix: string, suffix: string, m: Match) {
    forall start, len :: MatchesAt(s, prefix, suffix, start, len) ==> m.start <= start
  }

  /** No longer group matches at `m`'s start. */
  ghost predicate Greedy(s: string, prefix: string, suffix: string, m: Match) {
    forall len :: MatchesAt(s, prefix, suffix, m.start, len) ==> len <= m.len
  }

  /** The suffix follows a group of `len` characters that starts at `g`. */
  predicate SuffixAfter(s: string, suffix: string, g: int, len: int) {
    OccursAt(s, suffix, g + len)
  }

  /** Length of the maximal run of `[\d.]` characters starting at `k`. */
  function NumRun(s: string, k: nat): (n: nat)
    requires k <= |s|
    ensures k + n <= |s|
    ensures AllNum(s[k..k + n])
    ensures k + n == |s| || !IsNumChar(s[k + n])
    decreases |s| - k
  {
    if k == |s| || !IsNumChar(s[k]) then 0
    else
      var n := 1 + NumRun(s, k + 1);
      assert s[k..k + n] == [s[k]] + s[k + 1..k + n];
      n
  }

  /** The maximal run of `[\d.]` characters starting at `k`. */
  function RunAt(s: string, k: nat): (r: string)
    requires k <= |s|
    ensures AllNum(r)
  {
    s[k..k + NumRun(s, k)]
  }

  /** A run of `[\d.]` characters at `k` is no longer than the maximal one. */
  lemma {:induction false} RunBound(s: string, k: nat, len: nat)
    requires k + len <= |s|
    requires AllNum(s[k..k + len])
    ensures len <= NumRun(s, k)
  {
    assert forall i :: k <= i < k + len ==> s[i] == s[k..k + len][i - k];
  }

  /** Every character of the maximal run is a `[\d.]` character. */
  lemma RunInside(s: string, k: nat)
    requires k <= |s|
    ensures forall i :: k <= i < k + NumRun(s, k) ==> IsNumChar(s[i])
  {
    var n := NumRun(s, k);
    assert forall i :: k <= i < k + n ==> s[i] == s[k..k + n][i - k];
  }

  /** Every prefix of the maximal run is a run too. */
  lemma RunPrefix(s: string, k: nat, len: nat)
    requires k <= |s|
    requires len <= NumRun(s, k)
    ensures AllNum(s[k..k + len])
  {
    assert s[k..k + len] == s[k..k + NumRun(s, k)][..len];
  }

  /** The longest group length in `1..n` after which the suffix occurs: the greedy
      quantifier backing off one character at a time. */
  function LongestGroup(s: string, suffix: string, g: int, n: nat): (r: Option<nat>)
    ensures r.Some? ==> 1 <= r.value <= n && SuffixAfter(s, suffix, g, r.value)
    ensures r.Some? ==> forall len :: r.value < len <= n ==> !SuffixAfter(s, suffix, g, len)
    ensures r.None? ==> forall len :: 1 <= len <= n ==> !SuffixAfter(s, suffix, g, len)
  {
    if n == 0 then None
    else if SuffixAfter(s, suffix, g, n) then Some(n)
    else LongestGroup(s, suffix, g, n - 1)
  }

  /** A match at `start` is the prefix there, a group within the maximal run after
      it, and the suffix after the group. */
  lemma MatchesAtIff(s: string, prefix: string, suffix: string, start: nat, len: int)
    requires start + |prefix| <= |s|
    ensures MatchesAt(s, prefix, suffix, start, len) <==>
              && s[start..start + |prefix|] == prefix
              && 1 <= len <= NumRun(s, start + |prefix|)
              && SuffixAfter(s, suffix, start + |prefix|, len)
  {
    var g := start + |prefix|;
    if MatchesAt(s, prefix, suffix, start, len) {
      RunBound(s, g, len);
    }
    if 1 <= len <= NumRun(s, g) {
      RunPrefix(s, g, len);
    }
  }

  /** The greedy group length of a match starting exactly at `start`, if there is one. */
  function MatchAtStart(s: string, prefix: string, suffix: string, start: nat): (r: Option<nat>)
    ensures r.Some? ==> MatchesAt(s, prefix, suffix, start, r.value)
    ensures r.Some? ==> forall len :: MatchesAt(s, prefix, suffix, start, len) ==> len <= r.value
    ensures r.None? ==> forall len :: !MatchesAt(s, prefix, suffix, start, len)
  {
    if start + |prefix| <= |s| && s[start..start + |prefix|] == prefix then
      var g := start + |prefix|;
      var r := LongestGroup(s, suffix, g, NumRun(s, g));
      assert forall len :: MatchesAt(s, prefix, suffix, start, len) <==>
          1 <= len <= NumRun(s, g) && SuffixAfter(s, suffix, g, len) by {
        forall len {
          MatchesAtIff(s, prefix, suffix, start, len);
        }
      }
      r
    else
      None
  }

  /** The scan of `re.search` from position `i` on. */
  function SearchFrom(s: string, prefix: string, suffix: string, i: nat): (r: Option<Match>)
    ensures r.None? ==> forall start, len :: i <= start ==> !MatchesAt(s, prefix, suffix, start, len)
    ensures r.Some? ==> i <= r.value.start && MatchesAt(s, prefix, suffix, r.value.start, r.value.len)
    ensures r.Some? ==> forall start, len :: i <= start < r.value.start ==> !MatchesAt(s, prefix, suffix, start, len)
    ensures r.Some? ==> Greedy(s, prefix, suffix, r.value)
    decreases |s| - i
  {
    if i >= |s| then None
    else
      match MatchAtStart(s, prefix, suffix, i)
      case Some(len) => Some(Match(i, len))
      case None => SearchFrom(s, prefix, suffix, i + 1)
  }

  /** `re.search(prefix + r'([\d.]+)' + suffix, s)`: the leftmost match, with the
      longest group at that position; `None` exactly when nothing matches. */
  function Search(s: string, prefix: string, suffix: string): (r: Option<Match>)
    ensures r.None? <==> NoMatch(s, prefix, suffix)
    ensures r.Some? ==> MatchesAt(s, prefix, suffix, r.value.start, r.value.len)
    ensures r.Some? ==> Leftmost(s, prefix, suffix, r.value) && Greedy(s, prefix, suffix, r.value)
  {
    SearchFrom(s, prefix, suffix, 0)
  }

  /** `match.group(1)`: the text of the captured group of a match. */
  function Group(s: string, prefix: string, suffix: string, m: Match): (g: string)
    requires MatchesAt(s, prefix, suffix, m.start, m.len)
    ensures |g| == m.len >= 1
    ensures AllNum(g)
  {
    s[m.start + |prefix|..m.start + |prefix| + m.len]
  }

  /** A greedy group followed by a suffix that cannot begin with a `[\d.]` character
      takes the whole maximal run. */
  lemma GreedyGroupFillsRun(s: string, prefix: string, suffix: string, start: nat, len: nat)
    requires suffix == [] || !IsNumChar(suffix[0])
    requires MatchesAt(s, prefix, suffix, start, len)
    requires forall l :: MatchesAt(s, prefix, suffix, start, l) ==> l <= len
    ensures len == NumRun(s, start + |prefix|)
  {
    var g := start + |prefix|;
    MatchesAtIff(s, prefix, suffix, start, len);
    if suffix == [] {
      MatchesAtIff(s, prefix, suffix, start, NumRun(s, g));
    } else {
      assert s[g + len] == s[g + len..g + len + |suffix|][0];
      RunInside(s, g);
    }
  }

  /** When the suffix cannot begin with a `[\d.]` character, the regex engine never
      needs to back off: the group it captures is the whole maximal run after the prefix. */
  lemma GroupIsMaximalRun(s: string, prefix: string, suffix: string)
    requires suffix == [] || !IsNumChar(suffix[0])
    requires Search(s, prefix, suffix).Some?
    ensures var m := Search(s, prefix, suffix).value;
            m.len == NumRun(s, m.start + |prefix|)
  {
    var m := Search(s, prefix, suffix).value;
    assert Greedy(s, prefix, suffix, m);
    GreedyGroupFillsRun(s, prefix, suffix, m.start, m.len);
  }
}
