/** The Python string operations the image codec and the container helpers rely on:
    `str.startswith`, substring occurrence and `str.split(sep)` with a non-empty separator. */
module PyStrings {

  /** `s.startswith(p)`. */
  predicate StartsWith(s: string, p: string)
  {
    |p| <= |s| && s[..|p|] == p
  }

  /** `d` occurs in `s` starting at index `k`. */
  predicate OccursAt(s: string, d: string, k: int)
  {
    0 <= k && k + |d| <= |s| && s[k..k + |d|] == d
  }

  /** `d in s`. */
  ghost predicate Contains(s: string, d: string)
  {
    exists k :: OccursAt(s, d, k)
  }

  /** Writing `d` right after `i` creates no earlier occurrence of `d`: the
      first occurrence of `d` in `i + d` is the one at index |i|. */
  ghost predicate SeparatesCleanly(i: string, d: string)
  {
    forall k :: 0 <= k < |i| ==> !OccursAt(i + d, d, k)
  }

  /** No proper prefix of `d` is also a suffix of it, so two occurrences of `d` never overlap. */
  ghost predicate NoSelfOverlap(d: string)
  {
    forall m :: 0 < m < |d| ==> d[..m] != d[|d| - m..]
  }

  /** `s.split(d)`: cut at each occurrence of `d`, scanning left to right and
      resuming after each cut. */
  function Split(s: string, d: string): (parts: seq<string>)
    requires |d| > 0
    ensures |parts| >= 1
    decreases |s|
  {
    if |s| < |d| then [s]
    else if s[..|d|] == d then [""] + Split(s[|d|..], d)
    else
      var rest := Split(s[1..], d);
      [[s[0]] + rest[0]] + rest[1..]
  }

  /** `d.join(parts)`. */
  function Join(parts: seq<string>, d: string): string
    requires |parts| >= 1
    decreases |parts|
  {
    if |parts| == 1 then parts[0] else parts[0] + d + Join(parts[1..], d)
  }

  /** Joining the pieces of a split with the same separator gives the string back. */
  lemma {:induction false} JoinSplit(s: string, d: string)
    requires |d| > 0
    ensures Join(Split(s, d), d) == s
    decreases |s|
  {
    if |s| < |d| {
    } else if s[..|d|] == d {
      var rest := Split(s[|d|..], d);
      JoinSplit(s[|d|..], d);
      var parts := [""] + rest;
      assert Split(s, d) == parts;
      assert parts[1..] == rest;
      assert Join(parts, d) == "" + d + Join(rest, d);
      assert s == d + s[|d|..];
    } else {
      var rest := Split(s[1..], d);
      assert Split(s, d) == [[s[0]] + rest[0]] + rest[1..];
      JoinSplit(s[1..], d);
      JoinConsHead(s[0], rest, d);
      assert s == [s[0]] + s[1..];
    }
  }

  /** Prefixing the first piece prefixes the joined string. */
  lemma JoinConsHead(c: char, parts: seq<string>, d: string)
    requires |parts| >= 1
    ensures Join([[c] + parts[0]] + parts[1..], d) == [c] + Join(parts, d)
  {
    var q := [[c] + parts[0]] + parts[1..];
    assert q[1..] == parts[1..];
  }

  /** A string with no occurrence of the separator is not cut. */
  lemma {:induction false} SplitWithoutSeparator(s: string, d: string)
    requires |d| > 0
    requires !Contains(s, d)
    ensures Split(s, d) == [s]
    decreases |s|
  {
    if |s| >= |d| {
      assert !OccursAt(s, d, 0);
      assert s[0..|d|] == s[..|d|];
      forall k | OccursAt(s[1..], d, k)
        ensures false
      {
        assert s[1..][k..k + |d|] == s[k + 1..k + 1 + |d|];
        assert OccursAt(s, d, k + 1);
      }
      SplitWithoutSeparator(s[1..], d);
      assert [s[0]] + s[1..] == s;
    }
  }

  /** When `i` is followed by a clean occurrence of `d`, the split cuts exactly there. */
  lemma {:induction false} SplitAtFirstSeparator(i: string, d: string, t: string)
    requires |d| > 0
    requires SeparatesCleanly(i, d)
    ensures Split(i + d + t, d) == [i] + Split(t, d)
    decreases |i|
  {
    var s := i + d + t;
    if i == [] {
      assert s[..|d|] == d;
      assert s[|d|..] == t;
    } else {
      assert s[..|d|] == (i + d)[0..|d|];
      assert !OccursAt(i + d, d, 0);
      assert s[..|d|] != d;
      forall k | 0 <= k < |i[1..]|
        ensures !OccursAt(i[1..] + d, d, k)
      {
        assert (i[1..] + d)[k..k + |d|] == (i + d)[k + 1..k + 1 + |d|];
        assert !OccursAt(i + d, d, k + 1);
      }
      assert s[1..] == i[1..] + d + t;
      SplitAtFirstSeparator(i[1..], d, t);
      assert [i[0]] + i[1..] == i;
    }
  }

  /** The two-field round trip of the split: `(i + d + t).split(d) == [i, t]`. */
  lemma SplitTwoFields(i: string, d: string, t: string)
    requires |d| > 0
    requires SeparatesCleanly(i, d) && !Contains(t, d)
    ensures Split(i + d + t, d) == [i, t]
  {
    SplitAtFirstSeparator(i, d, t);
    SplitWithoutSeparator(t, d);
  }

  /** For a separator that cannot overlap itself, a field free of the separator
      is cleanly separated. */
  lemma CleanWithoutSelfOverlap(i: string, d: string)
    requires |d| > 0
    requires NoSelfOverlap(d) && !Contains(i, d)
    ensures SeparatesCleanly(i, d)
  {
    var w := i + d;
    forall k | 0 <= k < |i|
      ensures !OccursAt(w, d, k)
    {
      if k + |d| <= |i| {
        assert w[k..k + |d|] == i[k..k + |d|];
        assert !OccursAt(i, d, k);
      } else {
        // an occurrence here would end inside the trailing d, giving d a border of length |d| - m
        var m := |i| - k;
        assert w[k..k + |d|][m..] == w[|i|..k + |d|] == d[..|d| - m];
        assert d[|d| - (|d| - m)..] == d[m..];
        assert d[..|d| - m] != d[m..];
      }
    }
  }

}
