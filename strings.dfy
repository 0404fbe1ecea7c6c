/**
  The two string operations of Python that the cost calculator relies on:
  substring containment (`sub in s`) and `s.replace(pattern, replacement)`.
  For a non-empty `p`, `s.replace(p, r)` equals `r.join(s.split(p))`; `Split`
  and `Join` give that independent reference definition.
 */
module Strings {

  /** `p` is a prefix of `s`. */
  predicate IsPrefix(p: string, s: string) {
    |p| <= |s| && s[..|p|] == p
  }

  /** Python's `sub in s`; the empty string occurs in every string. */
  predicate Contains(s: string, sub: string)
    decreases |s|
  {
    IsPrefix(sub, s) || (s != [] && Contains(s[1..], sub))
  }

  /** `sub` occurs in `s` starting at index `i`. */
  ghost predicate OccursAt(s: string, sub: string, i: int) {
    0 <= i && i + |sub| <= |s| && s[i..i + |sub|] == sub
  }

  /** `Contains` scans for an occurrence exactly where one exists. */
  lemma {:induction false} ContainsIffOccurs(s: string, sub: string)
    ensures Contains(s, sub) <==> exists i :: OccursAt(s, sub, i)
    decreases |s|
  {
    if IsPrefix(sub, s) {
      assert OccursAt(s, sub, 0);
    } else if s == [] {
      assert forall i :: !OccursAt(s, sub, i);
    } else {
      ContainsIffOccurs(s[1..], sub);
      if Contains(s[1..], sub) {
        var i :| OccursAt(s[1..], sub, i);
        assert s[1..][i..i + |sub|] == s[i + 1..i + 1 + |sub|];
        assert OccursAt(s, sub, i + 1);
      }
      if exists i :: OccursAt(s, sub, i) {
        var i :| OccursAt(s, sub, i);
        assert i != 0;
        assert s[1..][i - 1..i - 1 + |sub|] == s[i..i + |sub|];
        assert OccursAt(s[1..], sub, i - 1);
      }
    }
  }

  /** `s.replace("", r)`: `r` before every character and once more at the end. */
  function InsertEverywhere(s: string, r: string): string
    decreases |s|
  {
    if s == [] then r else r + [s[0]] + InsertEverywhere(s[1..], r)
  }

  /**
    Python's `s.replace(pattern, replacement)`: scanning left to right, every
    occurrence of `pattern` that does not overlap an earlier replaced one
    becomes `replacement`; the replacement text is never rescanned.
   */
  function Replace(s: string, pattern: string, replacement: string): string
    decreases |s|
  {
    if pattern == [] then InsertEverywhere(s, replacement)
    else if |s| < |pattern| then s
    else if s[..|pattern|] == pattern then replacement + Replace(s[|pattern|..], pattern, replacement)
    else [s[0]] + Replace(s[1..], pattern, replacement)
  }

  /** Python's `s.split(sep)` for a non-empty `sep`. */
  function Split(s: string, sep: string): (parts: seq<string>)
    requires sep != []
    ensures |parts| >= 1
    decreases |s|
  {
    if |s| < |sep| then [s]
    else if s[..|sep|] == sep then [[]] + Split(s[|sep|..], sep)
    else
      var rest := Split(s[1..], sep);
      [[s[0]] + rest[0]] + rest[1..]
  }

  /** Python's `sep.join(parts)`. */
  function Join(parts: seq<string>, sep: string): string
    decreases |parts|
  {
    if |parts| == 0 then []
    else if |parts| == 1 then parts[0]
    else parts[0] + sep + Join(parts[1..], sep)
  }

  /** A text that does not contain the pattern comes back unchanged. */
  lemma {:induction false} ReplaceMissing(s: string, pattern: string, replacement: string)
    requires pattern != [] && !Contains(s, pattern)
    ensures Replace(s, pattern, replacement) == s
    decreases |s|
  {
    if |s| >= |pattern| {
      assert s[..|pattern|] != pattern;
      ReplaceMissing(s[1..], pattern, replacement);
      assert [s[0]] + s[1..] == s;
    }
  }

  lemma {:induction false} InsertNothing(s: string)
    ensures InsertEverywhere(s, []) == s
    decreases |s|
  {
    if s != [] {
      InsertNothing(s[1..]);
      assert [s[0]] + s[1..] == s;
    }
  }

  /** Replacing a name by itself changes nothing. */
  lemma {:induction false} ReplaceWithItself(s: string, pattern: string)
    ensures Replace(s, pattern, pattern) == s
    decreases |s|
  {
    if pattern == [] {
      InsertNothing(s);
    } else if |s| >= |pattern| {
      if s[..|pattern|] == pattern {
        ReplaceWithItself(s[|pattern|..], pattern);
        assert s[..|pattern|] + s[|pattern|..] == s;
      } else {
        ReplaceWithItself(s[1..], pattern);
        assert [s[0]] + s[1..] == s;
      }
    }
  }

  lemma JoinConsHead(c: char, parts: seq<string>, sep: string)
    requires |parts| >= 1
    ensures Join([[c] + parts[0]] + parts[1..], sep) == [c] + Join(parts, sep)
  {
    var q := [[c] + parts[0]] + parts[1..];
    assert q[1..] == parts[1..];
    if |parts| > 1 {
      assert ([c] + parts[0]) + sep + Join(parts[1..], sep) == [c] + (parts[0] + sep + Join(parts[1..], sep));
    }
  }

  /** For a non-empty `p`, `s.replace(p, r) == r.join(s.split(p))`. */
  lemma {:induction false} ReplaceIsSplitJoin(s: string, pattern: string, replacement: string)
    requires pattern != []
    ensures Replace(s, pattern, replacement) == Join(Split(s, pattern), replacement)
    decreases |s|
  {
    if |s| < |pattern| {
    } else if s[..|pattern|] == pattern {
      ReplaceIsSplitJoin(s[|pattern|..], pattern, replacement);
      var rest := Split(s[|pattern|..], pattern);
      assert ([[]] + rest)[1..] == rest;
    } else {
      ReplaceIsSplitJoin(s[1..], pattern, replacement);
      JoinConsHead(s[0], Split(s[1..], pattern), replacement);
    }
  }

  /** Splitting on a separator and joining back with it restores the text. */
  lemma SplitJoinRoundTrip(s: string, sep: string)
    requires sep != []
    ensures Join(Split(s, sep), sep) == s
  {
    ReplaceIsSplitJoin(s, sep, sep);
    ReplaceWithItself(s, sep);
  }

  /**
    Replacement is by substring, not by whole name: replacing `prod` also
    rewrites the start of the longer name `produto`.
   */
  lemma ReplaceRewritesInsideLongerName()
    ensures Replace("produto", "prod", "5") == "5uto"
  {
    assert "produto"[..4] == "prod";
    assert "produto"[4..] == "uto";
    assert Replace("uto", "prod", "5") == "uto";
  }
}
