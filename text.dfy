/**
 * The Python string and path builtins the cleanup script relies on
 * (`str.startswith`, `str.endswith`, `in`, `str.replace`, `str.strip`,
 * `str.lower`, `os.path.join`), restated on `seq<char>`.
 */
module Text {

  /** `s.startswith(prefix)` */
  predicate StartsWith(s: string, prefix: string) {
    |prefix| <= |s| && s[..|prefix|] == prefix
  }

  /** `s.endswith(suffix)` */
  predicate EndsWith(s: string, suffix: string) {
    |suffix| <= |s| && s[|s| - |suffix|..] == suffix
  }

  /** `p in s`: p occurs in s as a contiguous run; the empty string occurs in every string. */
  predicate Contains(s: string, p: string)
    decreases |s|
  {
    StartsWith(s, p) || (s != [] && Contains(s[1..], p))
  }

  /** p occurs in s starting at index i. */
  predicate OccursAt(s: string, p: string, i: int)
  {
    0 <= i <= |s| - |p| && s[i..i + |p|] == p
  }

  /** `Contains` is Python's `in`: it holds exactly when p occurs at some index of s. */
  lemma {:induction false} ContainsIff(s: string, p: string)
    ensures Contains(s, p) <==> exists i :: OccursAt(s, p, i)
    decreases |s|
  {
    if StartsWith(s, p) {
      assert OccursAt(s, p, 0);
    } else if s == [] {
      assert forall i :: !OccursAt(s, p, i);
    } else {
      ContainsIff(s[1..], p);
      if Contains(s[1..], p) {
        var j :| OccursAt(s[1..], p, j);
        assert s[j + 1..j + 1 + |p|] == s[1..][j..j + |p|];
        assert OccursAt(s, p, j + 1);
      }
      if exists i :: OccursAt(s, p, i) {
        var i :| OccursAt(s, p, i);
        assert i != 0;
        assert s[1..][i - 1..i - 1 + |p|] == s[i..i + |p|];
        assert OccursAt(s[1..], p, i - 1);
      }
    }
  }

  /**
   * `s.replace(p, '')`: scanning left to right, every non-overlapping
   * occurrence of p is cut out, wherever it stands (not only at the front).
   * An empty p leaves s as it is.
   */
  function RemoveAll(s: string, p: string): (r: string)
    ensures |r| <= |s|
    ensures !Contains(s, p) ==> r == s
    decreases |s|
  {
    if p == [] || |s| < |p| then s
    else if s[..|p|] == p then RemoveAll(s[|p|..], p)
    else [s[0]] + RemoveAll(s[1..], p)
  }

  /** `s.lstrip(c)`: drops the leading run of c and nothing else. */
  function StripLeading(s: string, c: char): (r: string)
    ensures |r| <= |s|
    ensures r == [] || r[0] != c
    decreases |s|
  {
    if s != [] && s[0] == c then StripLeading(s[1..], c) else s
  }

  /** `s.rstrip(c)`: drops the trailing run of c and nothing else. */
  function StripTrailing(s: string, c: char): (r: string)
    ensures |r| <= |s|
    ensures r == [] || r[|r| - 1] != c
    decreases |s|
  {
    if s != [] && s[|s| - 1] == c then StripTrailing(s[..|s| - 1], c) else s
  }

  /** What `lstrip` drops is a run of c at the front. */
  lemma {:induction false} StripLeadingDropsOnly(s: string, c: char)
    ensures var r := StripLeading(s, c);
              r == s[|s| - |r|..] && forall i :: 0 <= i < |s| - |r| ==> s[i] == c
    decreases |s|
  {
    if s != [] && s[0] == c {
      StripLeadingDropsOnly(s[1..], c);
    }
  }

  /** What `rstrip` drops is a run of c at the back. */
  lemma {:induction false} StripTrailingDropsOnly(s: string, c: char)
    ensures var r := StripTrailing(s, c);
              r == s[..|r|] && forall i :: |r| <= i < |s| ==> s[i] == c
    decreases |s|
  {
    if s != [] && s[|s| - 1] == c {
      StripTrailingDropsOnly(s[..|s| - 1], c);
    }
  }

  /** `s.strip(c)`: neither end of the result is c. */
  function Strip(s: string, c: char): (r: string)
    ensures |r| <= |s|
    ensures r == [] || (r[0] != c && r[|r| - 1] != c)
  {
    StripTrailingDropsOnly(StripLeading(s, c), c);
    StripTrailing(StripLeading(s, c), c)
  }

  /** Lower-casing of one character; only the ASCII capitals are mapped. */
  function LowerChar(ch: char): char {
    if 'A' <= ch <= 'Z' then (ch as int - 'A' as int + 'a' as int) as char else ch
  }

  /** `s.lower()`, character by character. */
  function Lower(s: string): (r: string)
    ensures |r| == |s|
  {
    seq(|s|, i requires 0 <= i < |s| => LowerChar(s[i]))
  }

  /**
   * `os.path.join(a, b)` on POSIX: an absolute b replaces a; otherwise a
   * separator is put between the two unless a is empty or already ends in one.
   */
  function JoinPath(a: string, b: string): (r: string)
    ensures !StartsWith(b, "/") ==> EndsWith(r, b)
    ensures a == [] ==> r == b
  {
    if StartsWith(b, "/") then b
    else if a == [] || EndsWith(a, "/") then a + b
    else a + "/" + b
  }

  /** Joining two plain segments puts exactly one `/` between them, and the result ends as `b` does. */
  lemma JoinSegments(a: string, b: string)
    requires a != [] && a[|a| - 1] != '/'
    requires b != [] && b[0] != '/' && b[|b| - 1] != '/'
    ensures JoinPath(a, b) == a + "/" + b
    ensures var r := JoinPath(a, b); r != [] && r[|r| - 1] != '/'
  {
    assert !StartsWith(b, "/") by {
      assert b[..1][0] == b[0];
    }
    assert !EndsWith(a, "/") by {
      assert a[|a| - 1..][0] == a[|a| - 1];
    }
  }

  /** Joining three plain segments puts exactly one `/` between each two. */
  lemma JoinSegmentsTwice(a: string, b: string, c: string)
    requires a != [] && a[|a| - 1] != '/'
    requires b != [] && b[0] != '/' && b[|b| - 1] != '/'
    requires c != [] && c[0] != '/' && c[|c| - 1] != '/'
    ensures JoinPath(JoinPath(a, b), c) == a + ("/" + b + "/") + c
  {
    JoinSegments(a, b);
    JoinSegments(a + "/" + b, c);
  }
}
