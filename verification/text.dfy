/** Character classes and the two plain-string operations the extraction loop uses:
    Python's `str.strip()` (through bs4's `get_text(strip=True)`) and the substring
    test `"Not Rated" in rating_text`. */
module Text {

  /** Python's `str.isspace()` set, which is what `str.strip()` removes. */
  predicate IsSpace(c: char) {
    || c == ' ' || c == '\t' || c == '\n' || c == '\r'
    || c == '\U{000B}' || c == '\U{000C}'
    || ('\U{001C}' <= c <= '\U{001F}')
    || c == '\U{0085}' || c == '\U{00A0}' || c == '\U{1680}'
    || ('\U{2000}' <= c <= '\U{200A}')
    || c == '\U{2028}' || c == '\U{2029}' || c == '\U{202F}' || c == '\U{205F}' || c == '\U{3000}'
  }

  predicate AllSpace(s: string) {
    forall k :: 0 <= k < |s| ==> IsSpace(s[k])
  }

  /** Neither end of `s` is whitespace: what a stripped string looks like. */
  predicate NoSurroundingSpace(s: string) {
    s == [] || (!IsSpace(s[0]) && !IsSpace(s[|s| - 1]))
  }

  /** `s` is `r` with whitespace added on either side (`r` starts at offset `a`). */
  predicate PaddedAt(s: string, r: string, a: int) {
    && 0 <= a && a + |r| <= |s|
    && s[a..a + |r|] == r
    && AllSpace(s[..a])
    && AllSpace(s[a + |r|..])
  }

  /** Number of whitespace characters at the start of `s`. */
  function LeadingSpace(s: string): (n: nat)
    ensures n <= |s|
    ensures AllSpace(s[..n])
    ensures n == |s| || !IsSpace(s[n])
  {
    if s == [] || !IsSpace(s[0]) then 0
    else
      var n := 1 + LeadingSpace(s[1..]);
      assert s[..n] == [s[0]] + s[1..][..n - 1];
      n
  }

  /** Number of whitespace characters at the end of `s`. */
  function TrailingSpace(s: string): (n: nat)
    ensures n <= |s|
    ensures AllSpace(s[|s| - n..])
    ensures n == |s| || !IsSpace(s[|s| - 1 - n])
  {
    if s == [] || !IsSpace(s[|s| - 1]) then 0
    else
      var p := s[..|s| - 1];
      var n := 1 + TrailingSpace(p);
      assert s[|s| - n..] == p[|p| - (n - 1)..] + [s[|s| - 1]];
      n
  }

  /** Python's `str.strip()` with no argument: drop leading, then trailing whitespace. */
  function Strip(s: string): (r: string)
    ensures NoSurroundingSpace(r)
    ensures exists a :: PaddedAt(s, r, a)
  {
    var a := LeadingSpace(s);
    var t := s[a..];
    var b := TrailingSpace(t);
    var r := t[..|t| - b];
    assert s[a..a + |r|] == r;
    assert s[a + |r|..] == t[|t| - b..];
    assert PaddedAt(s, r, a);
    r
  }

  /** A stripped string is left alone by `Strip`. */
  lemma {:induction false} StripClean(s: string)
    requires NoSurroundingSpace(s)
    ensures Strip(s) == s
  {
    assert LeadingSpace(s) == 0;
    assert TrailingSpace(s) == 0;
    assert s[0..] == s;
  }

  /** `Strip` is idempotent. */
  lemma StripIdempotent(s: string)
    ensures Strip(Strip(s)) == Strip(s)
  {
    StripClean(Strip(s));
  }

  /** Whitespace-only padding around `s` fixes its leading part. */
  lemma {:induction false} LeadingOfPadded(s: string, r: string, a: int)
    requires PaddedAt(s, r, a)
    requires r != [] && !IsSpace(r[0])
    ensures LeadingSpace(s) == a
  {
    var n := LeadingSpace(s);
    assert s[a] == s[a..a + |r|][0];
    assert forall k :: 0 <= k < a ==> s[k] == s[..a][k];
    assert forall k :: 0 <= k < n ==> s[k] == s[..n][k];
  }

  /** Whitespace-only padding around `s` fixes its trailing part. */
  lemma {:induction false} TrailingOfPadded(s: string, r: string, a: int)
    requires PaddedAt(s, r, a)
    requires r != [] && !IsSpace(r[|r| - 1])
    ensures TrailingSpace(s) == |s| - a - |r|
  {
    var n := TrailingSpace(s);
    var e := a + |r|;
    assert s[e - 1] == s[a..e][|r| - 1];
    assert forall k :: e <= k < |s| ==> s[k] == s[e..][k - e];
    assert forall k :: |s| - n <= k < |s| ==> s[k] == s[|s| - n..][k - (|s| - n)];
  }

  /** The two properties of `Strip` characterise it: any whitespace-free-ended
      string that `s` pads is `Strip(s)`. */
  lemma {:induction false} StripUnique(s: string, r: string, a: int)
    requires PaddedAt(s, r, a)
    requires NoSurroundingSpace(r)
    ensures Strip(s) == r
  {
    if r == [] {
      assert s == s[..a] + s[a..];
      assert AllSpace(s) by {
        forall k | 0 <= k < |s|
          ensures IsSpace(s[k])
        {
          if k < a { assert s[..a][k] == s[k]; } else { assert s[a..][k - a] == s[k]; }
        }
      }
    } else {
      LeadingOfPadded(s, r, a);
      TrailingOfPadded(s, r, a);
      var t := s[a..];
      assert TrailingSpace(t) == |s| - a - |r| by {
        assert PaddedAt(t, r, 0) by {
          assert t[..0] == [];
          assert t[|r|..] == s[a + |r|..];
          assert t[0..|r|] == s[a..a + |r|];
        }
        TrailingOfPadded(t, r, 0);
      }
      assert t[..|t| - (|s| - a - |r|)] == s[a..a + |r|];
    }
  }

  predicate IsDigit(c: char) {
    '0' <= c <= '9'
  }

  /** The regex character class `[\d.]` (ASCII digits). */
  predicate IsNumChar(c: char) {
    IsDigit(c) || c == '.'
  }

  predicate AllNum(s: string) {
    forall k :: 0 <= k < |s| ==> IsNumChar(s[k])
  }

  /** `t` occurs in `s` at offset `i`. */
  predicate OccursAt(s: string, t: string, i: int) {
    0 <= i && i + |t| <= |s| && s[i..i + |t|] == t
  }

  function ContainsFrom(s: string, t: string, i: nat): (r: bool)
    requires i <= |s|
    ensures r <==> exists k :: i <= k && OccursAt(s, t, k)
    decreases |s| - i
  {
    if OccursAt(s, t, i) then true
    else if i == |s| then false
    else ContainsFrom(s, t, i + 1)
  }

  /** Python's substring test `t in s`. */
  function Contains(s: string, t: string): (r: bool)
    ensures r <==> exists k :: OccursAt(s, t, k)
  {
    ContainsFrom(s, t, 0)
  }
}
