/**
 * The parts of Go's `strings` and `sort` packages that the flasher relies on:
 * the order on strings used by `sort.Strings` (the code-point order, equal to
 * its byte order on valid UTF-8), and `strings.Replace(s, old, "", -1)`, which deletes every occurrence of `old`.
 */
module GoStrings {

  /** One byte, as read from a serial port. */
  newtype byte = b: int | 0 <= b < 256

  /** The carriage-return byte, `'\r'`. */
  const CR: byte := 13

  // ---------------------------------------------------------------------------
  // Order on strings: the code-point order, equal to the byte order of
  // `sort.Strings` on valid UTF-8.
  // ---------------------------------------------------------------------------

  /** `a` sorts before `b` or equals it. */
  predicate LessEq(a: string, b: string)
  {
    a == [] || (b != [] && (a[0] < b[0] || (a[0] == b[0] && LessEq(a[1..], b[1..]))))
  }

  lemma {:induction false} LessEqTotal(a: string, b: string)
    ensures LessEq(a, b) || LessEq(b, a)
  {
    if a != [] && b != [] && a[0] == b[0] {
      LessEqTotal(a[1..], b[1..]);
    }
  }

  lemma {:induction false} LessEqTransitive(a: string, b: string, c: string)
    requires LessEq(a, b) && LessEq(b, c)
    ensures LessEq(a, c)
  {
    if a != [] && b != [] && c != [] && a[0] == b[0] == c[0] {
      LessEqTransitive(a[1..], b[1..], c[1..]);
    }
  }

  lemma {:induction false} LessEqAntisymmetric(a: string, b: string)
    requires LessEq(a, b) && LessEq(b, a)
    ensures a == b
  {
    if a != [] && b != [] {
      LessEqAntisymmetric(a[1..], b[1..]);
      assert a == [a[0]] + a[1..] && b == [b[0]] + b[1..];
    }
  }

  /** Every element sorts before or equals every later one. */
  ghost predicate Sorted(s: seq<string>)
  {
    forall i, j :: 0 <= i < j < |s| ==> LessEq(s[i], s[j])
  }

  /** Every element sorts strictly before every later one. */
  ghost predicate StrictlySorted(s: seq<string>)
  {
    forall i, j :: 0 <= i < j < |s| ==> LessEq(s[i], s[j]) && s[i] != s[j]
  }

  /** Inserts `x` into a sorted sequence, before the first element it does not follow. */
  function Insert(s: seq<string>, x: string): (r: seq<string>)
    requires Sorted(s)
    ensures Sorted(r)
    ensures multiset(r) == multiset(s) + multiset{x}
    decreases |s|
  {
    if s == [] then [x]
    else if LessEq(x, s[0]) then
      InsertFrontSorted(s, x);
      [x] + s
    else
      LessEqTotal(x, s[0]);
      var t := Insert(s[1..], x);
      InsertAfterHead(s, x, t);
      assert s == [s[0]] + s[1..];
      [s[0]] + t
  }

  lemma InsertFrontSorted(s: seq<string>, x: string)
    requires Sorted(s) && s != [] && LessEq(x, s[0])
    ensures Sorted([x] + s)
  {
    forall j | 0 < j < |s| ensures LessEq(x, s[j]) {
      LessEqTransitive(x, s[0], s[j]);
    }
  }

  lemma InsertAfterHead(s: seq<string>, x: string, t: seq<string>)
    requires Sorted(s) && s != [] && LessEq(s[0], x)
    requires Sorted(t) && multiset(t) == multiset(s[1..]) + multiset{x}
    ensures Sorted([s[0]] + t)
  {
    forall j | 0 <= j < |t| ensures LessEq(s[0], t[j]) {
      assert t[j] in multiset(t);
      if t[j] != x {
        assert t[j] in multiset(s[1..]);
        var k :| 0 <= k < |s[1..]| && s[1..][k] == t[j];
        assert s[k + 1] == t[j];
      }
    }
  }

  /**
   * `sort.Strings`: the input's elements, each as often as before, in
   * non-decreasing order.
   */
  method SortStrings(s: seq<string>) returns (r: seq<string>)
    ensures Sorted(r)
    ensures multiset(r) == multiset(s)
  {
    r := [];
    for i := 0 to |s|
      invariant Sorted(r)
      invariant multiset(r) == multiset(s[..i])
    {
      r := Insert(r, s[i]);
      assert s[..i + 1] == s[..i] + [s[i]];
    }
    assert s[..|s|] == s;
  }

  /** A sequence in which every value occurs at most once is strictly sorted once sorted. */
  lemma SortedDistinctIsStrict(s: seq<string>)
    requires Sorted(s)
    requires forall x :: multiset(s)[x] <= 1
    ensures StrictlySorted(s)
  {
    forall i, j | 0 <= i < j < |s| ensures s[i] != s[j] {
      if s[i] == s[j] {
        DuplicateCount(s, i, j);
        assert false;
      }
    }
  }

  lemma DuplicateCount<T>(s: seq<T>, i: nat, j: nat)
    requires i < j < |s| && s[i] == s[j]
    ensures multiset(s)[s[i]] >= 2
  {
    assert s == s[..i] + [s[i]] + s[i + 1..j] + [s[j]] + s[j + 1..];
  }

  /** Two strictly sorted sequences with the same elements are the same sequence. */
  lemma {:induction false} StrictlySortedUnique(s: seq<string>, t: seq<string>)
    requires StrictlySorted(s) && StrictlySorted(t)
    requires forall x :: x in s <==> x in t
    ensures s == t
  {
    if s != [] {
      assert s[0] in t;
    }
    if t != [] {
      assert t[0] in s;
    }
    if s != [] && t != [] {
      var i :| 0 <= i < |t| && t[i] == s[0];
      var j :| 0 <= j < |s| && s[j] == t[0];
      if s[0] != t[0] {
        assert i > 0 && j > 0;
        assert LessEq(t[0], s[0]) && LessEq(s[0], t[0]);
        LessEqAntisymmetric(s[0], t[0]);
      }
      forall x ensures x in s[1..] <==> x in t[1..] {
        if x in s[1..] {
          var k :| 0 <= k < |s[1..]| && s[1..][k] == x;
          assert s[k + 1] == x && x != s[0] && x in s;
          var m :| 0 <= m < |t| && t[m] == x;
          assert m != 0 && t[1..][m - 1] == x;
        }
        if x in t[1..] {
          var k :| 0 <= k < |t[1..]| && t[1..][k] == x;
          assert t[k + 1] == x && x != t[0] && x in t;
          var m :| 0 <= m < |s| && s[m] == x;
          assert m != 0 && s[1..][m - 1] == x;
        }
      }
      StrictlySortedUnique(s[1..], t[1..]);
      assert s == [s[0]] + s[1..] && t == [t[0]] + t[1..];
    }
  }

  // ---------------------------------------------------------------------------
  // strings.Replace(s, old, "", -1)
  // ---------------------------------------------------------------------------

  /** `pat` occurs in `s` starting at position `i`. */
  predicate OccursAt<T(==)>(s: seq<T>, pat: seq<T>, i: nat)
  {
    i + |pat| <= |s| && s[i..i + |pat|] == pat
  }

  /**
   * `strings.Replace(s, old, "", -1)`: scanning left to right, every
   * non-overlapping occurrence of `pat` is deleted. With an empty `pat` Go
   * inserts the empty replacement at every position, which leaves `s` as it is.
   */
  function RemoveAll<T(==)>(s: seq<T>, pat: seq<T>): (r: seq<T>)
    ensures |r| <= |s|
    decreases |s|
  {
    if pat == [] || |s| < |pat| then s
    else if s[..|pat|] == pat then RemoveAll(s[|pat|..], pat)
    else [s[0]] + RemoveAll(s[1..], pat)
  }

  /** Text in which the pattern occurs nowhere comes back unchanged. */
  lemma {:induction false} RemoveAllNoMatch<T>(s: seq<T>, pat: seq<T>)
    requires pat != []
    requires forall i :: 0 <= i <= |s| - |pat| ==> !OccursAt(s, pat, i)
    ensures RemoveAll(s, pat) == s
    decreases |s|
  {
    if |s| >= |pat| {
      assert !OccursAt(s, pat, 0);
      forall i | 0 <= i <= |s[1..]| - |pat|
        ensures !OccursAt(s[1..], pat, i)
      {
        assert !OccursAt(s, pat, i + 1);
        assert s[1..][i..i + |pat|] == s[i + 1..i + 1 + |pat|];
      }
      RemoveAllNoMatch(s[1..], pat);
      assert s == [s[0]] + s[1..];
    }
  }

  /** A first element that cannot start the pattern is kept: a case of `RemoveAllSkipsHead`. */
  lemma RemoveAllKeepsHead<T>(s: seq<T>, pat: seq<T>)
    requires pat != [] && s != [] && s[0] != pat[0]
    ensures RemoveAll(s, pat) == [s[0]] + RemoveAll(s[1..], pat)
  {
    assert !OccursAt(s, pat, 0) by {
      if |pat| <= |s| {
        assert s[0..|pat|][0] == s[0];
      }
    }
    RemoveAllSkipsHead(s, pat);
  }

  /** A leading occurrence is deleted and the scan goes on after it. */
  lemma RemoveAllLeadingMatch<T>(pat: seq<T>, rest: seq<T>)
    requires pat != []
    ensures RemoveAll(pat + rest, pat) == RemoveAll(rest, pat)
  {
    var s := pat + rest;
    assert s[..|pat|] == pat && s[|pat|..] == rest;
  }

  /** Where no occurrence starts at the front, the first element is kept. */
  lemma RemoveAllSkipsHead<T>(s: seq<T>, pat: seq<T>)
    requires pat != [] && s != [] && !OccursAt(s, pat, 0)
    ensures RemoveAll(s, pat) == [s[0]] + RemoveAll(s[1..], pat)
  {
    if |s| < |pat| {
      assert s == [s[0]] + s[1..];
    } else {
      assert s[0..|pat|] == s[..|pat|];
    }
  }

  /** An occurrence in the tail is an occurrence one place further on in the whole. */
  lemma OccursInTail<T>(s: seq<T>, pat: seq<T>, i: nat)
    requires s != [] && OccursAt(s[1..], pat, i)
    ensures OccursAt(s, pat, i + 1)
  {
    assert s[1..][i..i + |pat|] == s[i + 1..i + 1 + |pat|];
  }

  /** Cutting the tail at `n - 1` is cutting the whole at `n`. */
  lemma SplitAfterHead<T>(s: seq<T>, n: nat)
    requires 0 < n <= |s|
    ensures [s[0]] + s[1..][..n - 1] == s[..n]
    ensures s[1..][n - 1..] == s[n..]
  {
  }

  /** No occurrence of `pat` starts among the first `n` positions of `s`, stated position by position. */
  predicate NoMatchBefore<T(==)>(s: seq<T>, pat: seq<T>, n: nat)
    requires n <= |s|
    decreases n
  {
    n == 0 || (!OccursAt(s, pat, 0) && NoMatchBefore(s[1..], pat, n - 1))
  }

  /** The quantified statement implies the position-by-position one. */
  lemma {:induction false} NoMatchBeforeOf<T>(s: seq<T>, pat: seq<T>, n: nat)
    requires n <= |s|
    requires forall i :: 0 <= i < n ==> !OccursAt(s, pat, i)
    ensures NoMatchBefore(s, pat, n)
    decreases n
  {
    if n > 0 {
      forall i | 0 <= i < n - 1
        ensures !OccursAt(s[1..], pat, i)
      {
        if OccursAt(s[1..], pat, i) {
          OccursInTail(s, pat, i);
        }
      }
      NoMatchBeforeOf(s[1..], pat, n - 1);
    }
  }

  /** One step of the walk over positions where no occurrence starts. */
  lemma RemoveAllFrontStep<T>(s: seq<T>, n: nat, pat: seq<T>)
    requires pat != [] && 0 < n <= |s| && !OccursAt(s, pat, 0)
    requires RemoveAll(s[1..], pat) == s[1..][..n - 1] + RemoveAll(s[1..][n - 1..], pat)
    ensures RemoveAll(s, pat) == s[..n] + RemoveAll(s[n..], pat)
  {
    RemoveAllSkipsHead(s, pat);
    SplitAfterHead(s, n);
    var r := RemoveAll(s[n..], pat);
    assert [s[0]] + (s[1..][..n - 1] + r) == ([s[0]] + s[1..][..n - 1]) + r;
  }

  /** When no occurrence starts among the first `n` positions, those `n` elements are kept. */
  lemma {:induction false} RemoveAllUnmatchedFront<T>(s: seq<T>, n: nat, pat: seq<T>)
    requires pat != [] && n <= |s|
    requires NoMatchBefore(s, pat, n)
    ensures RemoveAll(s, pat) == s[..n] + RemoveAll(s[n..], pat)
    decreases n
  {
    if n == 0 {
      assert s[..0] == [] && s[0..] == s;
    } else {
      RemoveAllUnmatchedFront(s[1..], n - 1, pat);
      RemoveAllFrontStep(s, n, pat);
    }
  }

  /** Text in which no occurrence of the pattern starts is kept as it is, and deletion continues after it. */
  lemma RemoveAllUnmatchedPrefix<T>(prefix: seq<T>, t: seq<T>, pat: seq<T>)
    requires pat != []
    requires forall i :: 0 <= i < |prefix| ==> !OccursAt(prefix + t, pat, i)
    ensures RemoveAll(prefix + t, pat) == prefix + RemoveAll(t, pat)
  {
    var s := prefix + t;
    NoMatchBeforeOf(s, pat, |prefix|);
    RemoveAllUnmatchedFront(s, |prefix|, pat);
    assert s[..|prefix|] == prefix && s[|prefix|..] == t;
  }

  /** Text none of whose elements can start the pattern passes through: a case of `RemoveAllUnmatchedPrefix`. */
  lemma RemoveAllPlainPrefix<T>(prefix: seq<T>, t: seq<T>, pat: seq<T>)
    requires pat != [] && pat[0] !in prefix
    ensures RemoveAll(prefix + t, pat) == prefix + RemoveAll(t, pat)
  {
    var s := prefix + t;
    forall i | 0 <= i < |prefix|
      ensures !OccursAt(s, pat, i)
    {
      if i + |pat| <= |s| {
        assert s[i..i + |pat|][0] == s[i] == prefix[i];
      }
    }
    RemoveAllUnmatchedPrefix(prefix, t, pat);
  }

  /** No occurrence starting in `prefix` fits inside `prefix + t`, so text appended after `t` adds none there. */
  lemma NoMatchExtended<T>(prefix: seq<T>, t: seq<T>, u: seq<T>, pat: seq<T>)
    requires |pat| <= |t|
    requires forall i :: 0 <= i < |prefix| ==> !OccursAt(prefix + t, pat, i)
    ensures forall i :: 0 <= i < |prefix| ==> !OccursAt(prefix + (t + u), pat, i)
  {
    var s, s2 := prefix + t, prefix + (t + u);
    forall i | 0 <= i < |prefix|
      ensures !OccursAt(s2, pat, i)
    {
      assert !OccursAt(s, pat, i);
      assert s2[i..i + |pat|] == s[i..i + |pat|];
    }
  }

  /** Text that cannot start the pattern passes through; the pattern right after it is deleted. */
  lemma RemoveAllAfterPlainPrefix<T>(prefix: seq<T>, pat: seq<T>, rest: seq<T>)
    requires pat != [] && pat[0] !in prefix
    ensures RemoveAll(prefix + pat + rest, pat) == prefix + RemoveAll(rest, pat)
  {
    assert prefix + pat + rest == prefix + (pat + rest);
    RemoveAllPlainPrefix(prefix, pat + rest, pat);
    RemoveAllLeadingMatch(pat, rest);
  }

  /** Both copies of a doubled pattern after plain text are deleted. */
  lemma RemoveAllDoubled<T>(prefix: seq<T>, pat: seq<T>)
    requires pat != [] && pat[0] !in prefix
    ensures RemoveAll(prefix + pat + pat, pat) == prefix
  {
    RemoveAllAfterPlainPrefix(prefix, pat, pat);
    RemoveAllAfterPlainPrefix([], pat, []);
    assert pat == [] + pat + [];
  }

  /** Both copies of a doubled pattern are deleted after text in which no occurrence starts. */
  lemma RemoveAllUnmatchedDoubled<T>(prefix: seq<T>, pat: seq<T>)
    requires pat != []
    requires forall i :: 0 <= i < |prefix| ==> !OccursAt(prefix + pat, pat, i)
    ensures RemoveAll(prefix + pat + pat, pat) == prefix
  {
    NoMatchExtended(prefix, pat, pat, pat);
    RemoveAllUnmatchedPrefix(prefix, pat + pat, pat);
    assert prefix + pat + pat == prefix + (pat + pat);
    RemoveAllLeadingMatch(pat, pat);
    RemoveAllLeadingMatch(pat, []);
    assert pat + [] == pat;
  }

  /** Reference definition: `s` with every `x` left out, the rest in order. */
  function Without<T(==)>(s: seq<T>, x: T): seq<T>
  {
    if s == [] then [] else (if s[0] == x then [] else [s[0]]) + Without(s[1..], x)
  }

  /** Deleting a one-element pattern is leaving that element out. */
  lemma {:induction false} RemoveAllSingle<T>(s: seq<T>, x: T)
    ensures RemoveAll(s, [x]) == Without(s, x)
  {
    if s != [] {
      RemoveAllSingle(s[1..], x);
      if s[0] == x {
        assert s[..1] == [x];
      } else {
        assert s[..1] != [x];
      }
    }
  }

  lemma {:induction false} WithoutOmits<T>(s: seq<T>, x: T)
    ensures x !in Without(s, x)
  {
    if s != [] {
      WithoutOmits(s[1..], x);
    }
  }

  lemma {:induction false} WithoutCounts<T>(s: seq<T>, x: T)
    ensures multiset(Without(s, x))[x] == 0
    ensures forall y :: y != x ==> multiset(Without(s, x))[y] == multiset(s)[y]
  {
    if s != [] {
      WithoutCounts(s[1..], x);
      assert s == [s[0]] + s[1..];
    }
  }

  lemma {:induction false} WithoutLength<T>(s: seq<T>, x: T)
    ensures |Without(s, x)| == |s| - multiset(s)[x]
  {
    if s != [] {
      WithoutLength(s[1..], x);
      assert s == [s[0]] + s[1..];
    }
  }

  lemma {:induction false} WithoutIdempotent<T>(s: seq<T>, x: T)
    ensures Without(Without(s, x), x) == Without(s, x)
  {
    if s != [] {
      WithoutIdempotent(s[1..], x);
      var w := Without(s, x);
      if s[0] != x {
        assert w == [s[0]] + Without(s[1..], x);
        assert w != [] && w[0] == s[0] && w[1..] == Without(s[1..], x);
        assert Without(w, x) == [s[0]] + Without(w[1..], x);
      } else {
        assert w == Without(s[1..], x);
      }
    }
  }
}
