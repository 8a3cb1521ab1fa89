/** Order-preserving filtering and prefixes of sequences: JavaScript's
    `Array.prototype.filter` and `slice(0, n)`, used by every listing in the storefront. */
module Seqs {

  /** `s.filter(keep)`: the elements of `s` that satisfy `keep`, in their original order. */
  function Filter<T(!new)>(s: seq<T>, keep: T -> bool): (r: seq<T>)
    ensures |r| <= |s|
    ensures forall x :: x in r <==> x in s && keep(x)
    ensures forall i :: 0 <= i < |r| ==> keep(r[i])
  {
    if s == [] then []
    else if keep(s[0]) then [s[0]] + Filter(s[1..], keep)
    else Filter(s[1..], keep)
  }

  /** `s.slice(0, n)`. */
  function Take<T>(s: seq<T>, n: nat): (r: seq<T>)
    ensures |r| == if |s| < n then |s| else n
    ensures r <= s
  {
    if |s| <= n then s else s[..n]
  }

  /** `a` is `b` with some elements left out, the rest kept in order. */
  ghost predicate IsSubsequence<T>(a: seq<T>, b: seq<T>)
    decreases |b|
  {
    if a == [] then true
    else if b == [] then false
    else (a[0] == b[0] && IsSubsequence(a[1..], b[1..])) || IsSubsequence(a, b[1..])
  }

  /** Filtering keeps order: the result is a subsequence of the input. */
  lemma {:induction false} FilterIsSubsequence<T(!new)>(s: seq<T>, keep: T -> bool)
    ensures IsSubsequence(Filter(s, keep), s)
  {
    if s != [] {
      FilterIsSubsequence(s[1..], keep);
      var r := Filter(s, keep);
      if keep(s[0]) {
        assert r[0] == s[0] && r[1..] == Filter(s[1..], keep);
      } else {
        if r != [] {
          assert IsSubsequence(r, s[1..]);
        }
      }
    }
  }

  /** A subsequence is never longer than the sequence it is taken from. */
  lemma {:induction false} SubsequenceLength<T>(a: seq<T>, b: seq<T>)
    requires IsSubsequence(a, b)
    ensures |a| <= |b|
    decreases |b|
  {
    if a != [] {
      if a[0] == b[0] && IsSubsequence(a[1..], b[1..]) {
        SubsequenceLength(a[1..], b[1..]);
      } else {
        SubsequenceLength(a, b[1..]);
      }
    }
  }

  /** Filtering a sequence extended at the end: the loop-friendly form of `Filter`. */
  lemma {:induction false} FilterSnoc<T(!new)>(s: seq<T>, x: T, keep: T -> bool)
    ensures Filter(s + [x], keep) == Filter(s, keep) + (if keep(x) then [x] else [])
  {
    if s == [] {
      assert [x][1..] == [];
    } else {
      assert (s + [x])[0] == s[0];
      assert (s + [x])[1..] == s[1..] + [x];
      FilterSnoc(s[1..], x, keep);
    }
  }

  /** Filtering distributes over concatenation. */
  lemma {:induction false} FilterAppend<T(!new)>(a: seq<T>, b: seq<T>, keep: T -> bool)
    ensures Filter(a + b, keep) == Filter(a, keep) + Filter(b, keep)
  {
    if a == [] {
      assert a + b == b;
    } else {
      assert (a + b)[0] == a[0];
      assert (a + b)[1..] == a[1..] + b;
      FilterAppend(a[1..], b, keep);
    }
  }

  /** Two tests that agree on every element of `s` select the same elements. */
  lemma {:induction false} FilterCongruent<T(!new)>(s: seq<T>, f: T -> bool, g: T -> bool)
    requires forall x :: x in s ==> f(x) == g(x)
    ensures Filter(s, f) == Filter(s, g)
  {
    if s != [] {
      assert forall x :: x in s[1..] ==> x in s;
      FilterCongruent(s[1..], f, g);
    }
  }

  /** A sequence without repeated elements. */
  ghost predicate Distinct<T>(s: seq<T>) {
    forall i, j :: 0 <= i < |s| && 0 <= j < |s| && s[i] == s[j] ==> i == j
  }

  /** Filtering never introduces repetitions. */
  lemma {:induction false} FilterDistinct<T(!new)>(s: seq<T>, keep: T -> bool)
    requires Distinct(s)
    ensures Distinct(Filter(s, keep))
  {
    if s != [] {
      assert Distinct(s[1..]) by {
        forall i, j | 0 <= i < |s[1..]| && 0 <= j < |s[1..]| && s[1..][i] == s[1..][j]
          ensures i == j
        {
          assert s[i + 1] == s[j + 1];
        }
      }
      FilterDistinct(s[1..], keep);
      if keep(s[0]) {
        var r := Filter(s, keep);
        forall k | 0 <= k < |s[1..]| ensures s[1..][k] != s[0] {
          assert s[1..][k] == s[k + 1];
        }
        forall i, j | 0 <= i < |r| && 0 <= j < |r| && i != j ensures r[i] != r[j] {
          if i > 0 && j > 0 {
            assert r[i] == Filter(s[1..], keep)[i - 1];
            assert r[j] == Filter(s[1..], keep)[j - 1];
          } else if i == 0 {
            assert r[j] == Filter(s[1..], keep)[j - 1];
            assert r[j] in s[1..];
          } else {
            assert r[i] == Filter(s[1..], keep)[i - 1];
            assert r[i] in s[1..];
          }
        }
      }
    }
  }

  /** A repetition-free sequence whose elements all occur in `s` is at most as long as `s`. */
  lemma {:induction false} DistinctWithinLength<T>(p: seq<T>, s: seq<T>)
    requires Distinct(p)
    requires forall x :: x in p ==> x in s
    ensures |p| <= |s|
  {
    if p != [] {
      var x := p[0];
      assert x in p;
      assert x in s;
      var k :| 0 <= k < |s| && s[k] == x;
      var rest := s[..k] + s[k + 1..];
      var tail := p[1..];
      assert Distinct(tail) by {
        forall i, j | 0 <= i < |tail| && 0 <= j < |tail| && tail[i] == tail[j] ensures i == j {
          assert p[i + 1] == p[j + 1];
        }
      }
      forall y | y in tail ensures y in rest {
        var i :| 0 <= i < |tail| && tail[i] == y;
        assert p[i + 1] == y;
        assert y != x;
        assert y in p;
        assert y in s;
        var m :| 0 <= m < |s| && s[m] == y;
        if m < k {
          assert rest[m] == y;
        } else {
          assert m != k;
          assert rest[m - 1] == y;
        }
      }
      DistinctWithinLength(tail, rest);
    }
  }

  /** A test no element passes keeps nothing. */
  lemma {:induction false} FilterNone<T(!new)>(s: seq<T>, keep: T -> bool)
    requires forall x :: x in s ==> !keep(x)
    ensures Filter(s, keep) == []
  {
    if s != [] {
      assert s[0] in s;
      FilterNone(s[1..], keep);
    }
  }

  /** A test every element passes keeps everything. */
  lemma {:induction false} FilterAll<T(!new)>(s: seq<T>, keep: T -> bool)
    requires forall x :: x in s ==> keep(x)
    ensures Filter(s, keep) == s
  {
    if s != [] {
      assert s[0] in s;
      FilterAll(s[1..], keep);
      assert [s[0]] + s[1..] == s;
    }
  }

  /** Two kept positions leave at least two elements. */
  lemma {:induction false} FilterKeepsTwo<T(!new)>(s: seq<T>, keep: T -> bool, i: nat, j: nat)
    requires i < j < |s| && keep(s[i]) && keep(s[j])
    ensures |Filter(s, keep)| >= 2
  {
    if i == 0 {
      assert s[j] == s[1..][j - 1];
      assert s[j] in Filter(s[1..], keep);
    } else {
      assert s[i] == s[1..][i - 1] && s[j] == s[1..][j - 1];
      FilterKeepsTwo(s[1..], keep, i - 1, j - 1);
    }
  }
}
