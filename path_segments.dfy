/**
 * JavaScript's `String.prototype.split` on a one-character separator and
 * `Array.prototype.pop` on its (never empty) result, together with an
 * independent description of "the text after the last separator".
 */
module PathSegments {

  /** `s.split(sep)` for a single-character separator: the pieces between separators, in order. */
  function Split(s: string, sep: char): (parts: seq<string>)
    ensures |parts| >= 1
    ensures forall i :: 0 <= i < |parts| ==> NoneOf(parts[i], {sep})
    ensures |parts| == 1 <==> NoneOf(s, {sep})
    decreases |s|
  {
    if s == [] then [[]]
    else
      var rest := Split(s[1..], sep);
      if s[0] == sep then [[]] + rest
      else [[s[0]] + rest[0]] + rest[1..]
  }

  /** `parts.join(sep)`: the inverse of Split. */
  function Join(parts: seq<string>, sep: char): (s: string)
    requires |parts| >= 1
    decreases |parts|
  {
    if |parts| == 1 then parts[0] else parts[0] + [sep] + Join(parts[1..], sep)
  }

  /** `a.pop()` on a non-empty array: the element it removes, leaving the rest of the array. */
  function Last<T>(a: seq<T>): (x: T)
    requires |a| >= 1
    ensures a == a[..|a| - 1] + [x]
  {
    a[|a| - 1]
  }

  /** Joining the pieces of a split gives back the original string. */
  lemma {:induction false} JoinSplit(s: string, sep: char)
    ensures Join(Split(s, sep), sep) == s
    decreases |s|
  {
    if s != [] {
      var rest := Split(s[1..], sep);
      JoinSplit(s[1..], sep);
      if s[0] == sep {
        assert Split(s, sep)[1..] == rest;
      } else {
        var parts := Split(s, sep);
        if |rest| > 1 {
          assert parts[1..] == rest[1..];
          assert Join(rest, sep) == rest[0] + [sep] + Join(rest[1..], sep);
        }
      }
    }
  }

  /** No character of `r` is in `seps`. */
  predicate NoneOf(r: string, seps: set<char>)
  {
    forall i :: 0 <= i < |r| ==> r[i] !in seps
  }

  /**
   * `r` is the last segment of `s` with respect to `seps`: a suffix of `s`
   * holding no separator, that is either all of `s` or preceded by a separator.
   */
  predicate IsLastSegment(s: string, r: string, seps: set<char>)
  {
    |r| <= |s| && r == s[|s| - |r|..] && NoneOf(r, seps) &&
    (|r| == |s| || s[|s| - |r| - 1] in seps)
  }

  /** At most one string is the last segment of `s`. */
  lemma LastSegmentUnique(s: string, r1: string, r2: string, seps: set<char>)
    requires IsLastSegment(s, r1, seps) && IsLastSegment(s, r2, seps)
    ensures r1 == r2
  {
  }

  /** A last segment of the tail of `s` is one of `s` too, unless it is the whole tail and `s[0]` is no separator. */
  lemma LastSegmentOfTail(s: string, r: string, seps: set<char>)
    requires |s| > 0 && IsLastSegment(s[1..], r, seps)
    requires |r| == |s| - 1 ==> s[0] in seps
    ensures IsLastSegment(s, r, seps)
  {
    assert s[1..][|s| - 1 - |r|..] == s[|s| - |r|..];
    if |r| < |s| - 1 {
      assert s[1..][|s| - 1 - |r| - 1] == s[|s| - |r| - 1];
    }
  }

  /** The last piece of `s.split(sep)` is the last segment of `s` with respect to `{sep}`. */
  lemma {:induction false} LastOfSplit(s: string, sep: char)
    ensures IsLastSegment(s, Last(Split(s, sep)), {sep})
    decreases |s|
  {
    if s != [] {
      var rest := Split(s[1..], sep);
      var parts := Split(s, sep);
      LastOfSplit(s[1..], sep);
      var r := Last(rest);
      if s[0] == sep {
        assert Last(parts) == r;
        LastSegmentOfTail(s, r, {sep});
      } else if |rest| == 1 {
        assert Last(parts) == [s[0]] + rest[0];
        assert r == s[1..];
        assert [s[0]] + rest[0] == s;
        assert NoneOf(s, {sep}) by {
          forall i | 1 <= i < |s| ensures s[i] !in {sep} {
            assert s[i] == s[1..][i - 1];
          }
        }
      } else {
        assert Last(parts) == r;
        assert |r| < |s| - 1;
        LastSegmentOfTail(s, r, {sep});
      }
    }
  }

  /** `s.split(sep).pop()`: the last piece of the split, which is the last segment of `s`. */
  function LastPiece(s: string, sep: char): (r: string)
    ensures IsLastSegment(s, r, {sep})
  {
    LastOfSplit(s, sep);
    Last(Split(s, sep))
  }

  /** Taking the last segment for one set of separators and then for another is the last segment for both. */
  lemma LastSegmentCompose(s: string, t: string, r: string, a: set<char>, b: set<char>, ab: set<char>)
    requires IsLastSegment(s, t, a) && IsLastSegment(t, r, b) && ab == a + b
    ensures IsLastSegment(s, r, ab)
  {
    assert r == s[|s| - |r|..];
    forall i | 0 <= i < |r| ensures r[i] !in ab {
      assert r[i] == t[|t| - |r| + i];
    }
    if |r| < |t| {
      assert s[|s| - |r| - 1] == t[|t| - |r| - 1];
    }
  }

  /** A string without separators is its own last segment. */
  lemma WholeIsLastSegment(s: string, seps: set<char>)
    requires NoneOf(s, seps)
    ensures IsLastSegment(s, s, seps)
  {
  }

  /** The index of the last character of `s` in `seps`, or -1 when there is none (`lastIndexOf`). */
  function LastIndexOfAny(s: string, seps: set<char>): (k: int)
    ensures -1 <= k < |s|
    ensures k >= 0 ==> s[k] in seps
    ensures forall j :: k < j < |s| ==> s[j] !in seps
    decreases |s|
  {
    if s == [] then -1
    else if s[|s| - 1] in seps then |s| - 1
    else LastIndexOfAny(s[..|s| - 1], seps)
  }

  /** The text after `LastIndexOfAny` is the last segment. */
  lemma AfterLastIndexIsLastSegment(s: string, seps: set<char>)
    ensures IsLastSegment(s, s[LastIndexOfAny(s, seps) + 1..], seps)
  {
    var k := LastIndexOfAny(s, seps);
    var r := s[k + 1..];
    assert |r| == |s| - k - 1;
    assert r == s[|s| - |r|..];
    assert NoneOf(r, seps) by {
      forall i | 0 <= i < |r| ensures r[i] !in seps {
        assert r[i] == s[k + 1 + i];
      }
    }
  }
}
