/** `Array.prototype.filter`, `reduce((sum, x) => sum + f(x), 0)` and the
    notion of a subsequence, shared by every list the pages derive, and the
    sizes of the sets the pages count with. */
module Seqs {

  /** `s.filter(p)`. */
  function Filter<T(==, !new)>(s: seq<T>, p: T -> bool): (r: seq<T>)
    ensures |r| <= |s|
    ensures forall x :: x in r <==> x in s && p(x)
    ensures forall i :: 0 <= i < |r| ==> r[i] in s && p(r[i])
    ensures forall i :: 0 <= i < |s| && p(s[i]) ==> s[i] in r
    decreases |s|
  {
    if |s| == 0 then []
    else if p(s[0]) then [s[0]] + Filter(s[1..], p)
    else Filter(s[1..], p)
  }

  /** `a` is obtained from `b` by deleting elements, keeping the order. */
  predicate IsSubsequence<T(==)>(a: seq<T>, b: seq<T>)
    decreases |b|
  {
    if |a| == 0 then true
    else if |b| == 0 then false
    else if a[0] == b[0] then IsSubsequence(a[1..], b[1..])
    else IsSubsequence(a, b[1..])
  }

  lemma {:induction false} SubsequenceOfItself<T>(s: seq<T>)
    ensures IsSubsequence(s, s)
    decreases |s|
  {
    if |s| > 0 {
      SubsequenceOfItself(s[1..]);
    }
  }

  /** A filtered list keeps the original order: it is a subsequence. */
  lemma {:induction false} FilterIsSubsequence<T(!new)>(s: seq<T>, p: T -> bool)
    ensures IsSubsequence(Filter(s, p), s)
    decreases |s|
  {
    if |s| > 0 {
      FilterIsSubsequence(s[1..], p);
      if !p(s[0]) {
        var r := Filter(s[1..], p);
        if |r| > 0 {
          assert p(r[0]) && r[0] != s[0];
        }
      }
    }
  }

  /** `s.findIndex(p)`: the first index whose element satisfies `p`, or
      -1 when there is none. */
  function FindIndex<T>(s: seq<T>, p: T -> bool): (r: int)
    ensures -1 <= r < |s|
    ensures r >= 0 ==> p(s[r])
    ensures forall j :: 0 <= j < |s| && (r < 0 || j < r) ==> !p(s[j])
    decreases |s|
  {
    if |s| == 0 then -1
    else if p(s[0]) then 0
    else
      var k := FindIndex(s[1..], p);
      if k < 0 then -1 else k + 1
  }

  /** One step of `Filter`, stated without unfolding its contract. */
  lemma FilterHead<T(!new)>(s: seq<T>, p: T -> bool)
    requires |s| > 0
    ensures Filter(s, p) == (if p(s[0]) then [s[0]] else []) + Filter(s[1..], p)
  {
  }

  lemma TailOfAppend<T>(a: seq<T>, b: seq<T>)
    requires |a| > 0
    ensures (a + b)[0] == a[0] && (a + b)[1..] == a[1..] + b
  {
  }

  /** Filtering a concatenation filters each part. */
  lemma {:induction false} FilterAppend<T(!new)>(a: seq<T>, b: seq<T>, p: T -> bool)
    ensures Filter(a + b, p) == Filter(a, p) + Filter(b, p)
    decreases |a|
  {
    if |a| > 0 {
      var t := a[1..];
      var h := if p(a[0]) then [a[0]] else [];
      FilterAppend(t, b, p);
      TailOfAppend(a, b);
      FilterHead(a, p);
      FilterHead(a + b, p);
      assert h + (Filter(t, p) + Filter(b, p)) == (h + Filter(t, p)) + Filter(b, p);
    } else {
      assert a + b == b;
    }
  }

  /** Filtering with a predicate that accepts everything changes nothing. */
  lemma {:induction false} FilterAll<T(!new)>(s: seq<T>, p: T -> bool)
    requires forall i :: 0 <= i < |s| ==> p(s[i])
    ensures Filter(s, p) == s
    decreases |s|
  {
    if |s| > 0 {
      FilterAll(s[1..], p);
    }
  }

  /** Filtering with a predicate that rejects everything leaves nothing. */
  lemma {:induction false} FilterNone<T(!new)>(s: seq<T>, p: T -> bool)
    requires forall i :: 0 <= i < |s| ==> !p(s[i])
    ensures Filter(s, p) == []
    decreases |s|
  {
    if |s| > 0 {
      FilterNone(s[1..], p);
    }
  }

  /** `s.filter(p).length`. */
  function Count<T(==, !new)>(s: seq<T>, p: T -> bool): nat {
    |Filter(s, p)|
  }

  /** Counting splits off the first element. */
  lemma CountCons<T(!new)>(s: seq<T>, p: T -> bool)
    requires |s| > 0
    ensures Count(s, p) == (if p(s[0]) then 1 else 0) + Count(s[1..], p)
  {
  }

  /** Appending one element raises the count by one exactly when it
      passes. */
  lemma CountSnoc<T(!new)>(s: seq<T>, a: T, p: T -> bool)
    ensures Count(s + [a], p) == Count(s, p) + (if p(a) then 1 else 0)
  {
    FilterAppend(s, [a], p);
    FilterHead([a], p);
    assert [a][1..] == [];
  }

  /** Counting by two predicates that never hold together counts at most
      the list once. */
  lemma {:induction false} CountDisjoint<T(!new)>(s: seq<T>, p: T -> bool, q: T -> bool)
    requires forall i :: 0 <= i < |s| ==> !(p(s[i]) && q(s[i]))
    ensures Count(s, p) + Count(s, q) == Count(s, x => p(x) || q(x))
    decreases |s|
  {
    if |s| > 0 {
      CountDisjoint(s[1..], p, q);
    }
  }

  /** `s.reduce((sum, x) => sum + f(x), 0)`. */
  function SumOf<T>(s: seq<T>, f: T -> real): real
    decreases |s|
  {
    if |s| == 0 then 0.0 else f(s[0]) + SumOf(s[1..], f)
  }

  lemma {:induction false} SumOfAppend<T>(a: seq<T>, b: seq<T>, f: T -> real)
    ensures SumOf(a + b, f) == SumOf(a, f) + SumOf(b, f)
    decreases |a|
  {
    if |a| > 0 {
      SumOfAppend(a[1..], b, f);
      assert (a + b)[0] == a[0] && (a + b)[1..] == a[1..] + b;
    } else {
      assert a + b == b;
    }
  }

  /** A sum of terms that are all at most the matching terms of another sum
      is at most that sum. */
  lemma {:induction false} SumOfMonotone<T>(s: seq<T>, f: T -> real, g: T -> real)
    requires forall i :: 0 <= i < |s| ==> f(s[i]) <= g(s[i])
    ensures SumOf(s, f) <= SumOf(s, g)
    decreases |s|
  {
    if |s| > 0 {
      SumOfMonotone(s[1..], f, g);
    }
  }

  /** The sum of a difference is the difference of the sums. */
  lemma {:induction false} SumOfDifference<T>(s: seq<T>, f: T -> real, g: T -> real, h: T -> real)
    requires forall i :: 0 <= i < |s| ==> h(s[i]) == f(s[i]) - g(s[i])
    ensures SumOf(s, h) == SumOf(s, f) - SumOf(s, g)
    decreases |s|
  {
    if |s| > 0 {
      SumOfDifference(s[1..], f, g, h);
    }
  }
  /** Filtering twice is filtering once by a condition that holds exactly
      when both do. */
  lemma {:induction false} FilterFilter<T(!new)>(s: seq<T>, p: T -> bool, q: T -> bool, both: T -> bool)
    requires forall i :: 0 <= i < |s| ==> both(s[i]) == (p(s[i]) && q(s[i]))
    ensures Filter(Filter(s, p), q) == Filter(s, both)
    decreases |s|
  {
    if |s| > 0 {
      var t := s[1..];
      assert forall i :: 0 <= i < |t| ==> t[i] == s[i + 1];
      FilterFilter(t, p, q, both);
      FilterHead(s, p);
      FilterHead(s, both);
      if p(s[0]) {
        FilterHead(Filter(s, p), q);
        assert Filter(s, p)[0] == s[0] && Filter(s, p)[1..] == Filter(t, p);
      }
    }
  }

  /** Two conditions that agree on every element filter alike. */
  lemma {:induction false} FilterExt<T(!new)>(s: seq<T>, p: T -> bool, q: T -> bool)
    requires forall i :: 0 <= i < |s| ==> p(s[i]) == q(s[i])
    ensures Filter(s, p) == Filter(s, q)
    decreases |s|
  {
    if |s| > 0 {
      FilterExt(s[1..], p, q);
    }
  }

  lemma {:induction false} SumOfNonNegative<T>(s: seq<T>, f: T -> real)
    requires forall i :: 0 <= i < |s| ==> f(s[i]) >= 0.0
    ensures SumOf(s, f) >= 0.0
    decreases |s|
  {
    if |s| > 0 {
      SumOfNonNegative(s[1..], f);
    }
  }

  /** Summing a non-negative quantity over fewer elements gives less. */
  lemma {:induction false} SumOfFilterMonotone<T(!new)>(s: seq<T>, p: T -> bool, q: T -> bool, f: T -> real)
    requires forall i :: 0 <= i < |s| ==> (q(s[i]) ==> p(s[i])) && f(s[i]) >= 0.0
    ensures SumOf(Filter(s, q), f) <= SumOf(Filter(s, p), f)
    decreases |s|
  {
    if |s| > 0 {
      SumOfFilterMonotone(s[1..], p, q, f);
      if p(s[0]) && !q(s[0]) {
        SumOfNonNegative(Filter(s[1..], p), f);
        SumOfNonNegative(Filter(s[1..], q), f);
      }
    }
  }

  /** A sum splits into the part a condition selects and the rest. */
  lemma {:induction false} SumOfFilterSplit<T(!new)>(s: seq<T>, p: T -> bool, f: T -> real)
    ensures SumOf(s, f) == SumOf(Filter(s, p), f) + SumOf(Filter(s, x => !p(x)), f)
    decreases |s|
  {
    if |s| > 0 {
      SumOfFilterSplit(s[1..], p, f);
    }
  }

  /** A subset is no larger than its superset. */
  lemma SubsetSize<T>(a: set<T>, b: set<T>)
    requires a <= b
    ensures |a| <= |b|
  {
    assert b == a + (b - a);
  }

  /** The day numbers `1..n`. */
  function DayRange(n: nat): set<nat> {
    if n == 0 then {} else DayRange(n - 1) + {n}
  }

  lemma {:induction false} DayRangeMembers(n: nat, d: nat)
    ensures d in DayRange(n) <==> 1 <= d <= n
  {
    if n > 0 {
      DayRangeMembers(n - 1, d);
    }
  }

  lemma {:induction false} DayRangeSize(n: nat)
    ensures |DayRange(n)| == n
  {
    if n > 0 {
      DayRangeSize(n - 1);
      DayRangeMembers(n - 1, n);
    }
  }
}
