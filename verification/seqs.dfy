/** `Array.prototype.filter` and `Array.prototype.map` on values, with the
    facts about them that the collection views rely on. */
module Seqs {

  /** `r` is made of elements of `s` taken in their original order. */
  predicate IsSubsequence<T(==,!new)>(r: seq<T>, s: seq<T>) {
    || r == []
    || (s != [] && ((r[0] == s[0] && IsSubsequence(r[1..], s[1..])) || IsSubsequence(r, s[1..])))
  }

  lemma {:induction false} SubsequenceReflexive<T(!new)>(s: seq<T>)
    ensures IsSubsequence(s, s)
    decreases |s|
  {
    if s != [] {
      SubsequenceReflexive(s[1..]);
    }
  }

  /** `s.filter(p)`: the elements satisfying `p`, each as often as in `s`,
      in the order of `s`. */
  function Filter<T(==,!new)>(s: seq<T>, p: T -> bool): (r: seq<T>)
    ensures |r| <= |s|
  {
    if s == [] then []
    else
      var rest := Filter(s[1..], p);
      assert s == [s[0]] + s[1..];
      if p(s[0]) then [s[0]] + rest else rest
  }

  /** The filtered sequence holds exactly the elements of `s` that pass. */
  lemma {:induction false} FilterMembers<T(!new)>(s: seq<T>, p: T -> bool)
    ensures forall x :: x in Filter(s, p) <==> x in s && p(x)
    decreases |s|
  {
    if s != [] {
      FilterMembers(s[1..], p);
      assert s == [s[0]] + s[1..];
    }
  }

  /** The filtered sequence keeps its elements in their order in `s`. */
  lemma {:induction false} FilterIsSubsequence<T(!new)>(s: seq<T>, p: T -> bool)
    ensures IsSubsequence(Filter(s, p), s)
    decreases |s|
  {
    if s != [] {
      FilterIsSubsequence(s[1..], p);
    }
  }

  /** Each element that passes occurs in the filtered sequence as often as in
      `s`; no other element occurs in it. */
  lemma {:induction false} FilterCounts<T(!new)>(s: seq<T>, p: T -> bool, x: T)
    ensures multiset(Filter(s, p))[x] == if p(x) then multiset(s)[x] else 0
    decreases |s|
  {
    if s != [] {
      FilterCounts(s[1..], p, x);
      assert s == [s[0]] + s[1..];
    }
  }

  /** `s.map(f)`. */
  function Map<T, U>(s: seq<T>, f: T -> U): seq<U> {
    seq(|s|, i requires 0 <= i < |s| => f(s[i]))
  }

  lemma {:induction false} FilterConcat<T(!new)>(a: seq<T>, b: seq<T>, p: T -> bool)
    ensures Filter(a + b, p) == Filter(a, p) + Filter(b, p)
    decreases |a|
  {
    if a == [] {
      assert a + b == b;
    } else {
      FilterConcat(a[1..], b, p);
      var head := if p(a[0]) then [a[0]] else [];
      assert (a + b)[0] == a[0];
      assert (a + b)[1..] == a[1..] + b;
      assert Filter(a + b, p) == head + Filter(a[1..] + b, p);
      assert Filter(a, p) == head + Filter(a[1..], p);
    }
  }

  lemma MapConcat<T, U>(a: seq<T>, b: seq<T>, f: T -> U)
    ensures Map(a + b, f) == Map(a, f) + Map(b, f)
  {
  }

  /** Filtering a sequence whose elements all pass changes nothing. */
  lemma {:induction false} FilterKeepsAll<T(!new)>(s: seq<T>, p: T -> bool)
    requires forall x :: x in s ==> p(x)
    ensures Filter(s, p) == s
    decreases |s|
  {
    if s != [] {
      FilterKeepsAll(s[1..], p);
    }
  }

  /** Filtering a sequence none of whose elements pass gives nothing. */
  lemma {:induction false} FilterNone<T(!new)>(s: seq<T>, p: T -> bool)
    requires forall x :: x in s ==> !p(x)
    ensures Filter(s, p) == []
    decreases |s|
  {
    if s != [] {
      FilterNone(s[1..], p);
    }
  }

  /** Filtering twice by the same predicate is filtering once. */
  lemma FilterIdempotent<T(!new)>(s: seq<T>, p: T -> bool)
    ensures Filter(Filter(s, p), p) == Filter(s, p)
  {
    FilterMembers(s, p);
    FilterKeepsAll(Filter(s, p), p);
  }

  /** Two filters can be applied in either order. */
  lemma {:induction false} FilterCommutes<T(!new)>(s: seq<T>, p: T -> bool, q: T -> bool)
    ensures Filter(Filter(s, p), q) == Filter(Filter(s, q), p)
    decreases |s|
  {
    if s != [] {
      FilterCommutes(s[1..], p, q);
    }
  }

  /** Filtering two sequences of the same length whose tests agree position
      by position keeps the same positions of both: the k-th survivor of
      each comes from one shared position m. */
  lemma {:induction false} FilterAligned<T(!new), U(!new)>(s: seq<T>, u: seq<U>, p: T -> bool, q: U -> bool)
    requires |s| == |u|
    requires forall k | 0 <= k < |s| :: p(s[k]) == q(u[k])
    ensures |Filter(s, p)| == |Filter(u, q)|
    ensures forall k | 0 <= k < |Filter(s, p)| ::
      exists m :: 0 <= m < |s| && Filter(s, p)[k] == s[m] && Filter(u, q)[k] == u[m]
    decreases |s|
  {
    if s != [] {
      var s1, u1 := s[1..], u[1..];
      forall k | 0 <= k < |s1| ensures p(s1[k]) == q(u1[k]) {
        assert s1[k] == s[k + 1] && u1[k] == u[k + 1];
      }
      FilterAligned(s1, u1, p, q);
      var fs, fu := Filter(s1, p), Filter(u1, q);
      var taken := p(s[0]);
      assert taken == q(u[0]);
      assert Filter(s, p) == (if taken then [s[0]] else []) + fs;
      assert Filter(u, q) == (if taken then [u[0]] else []) + fu;
      var off := if taken then 1 else 0;
      forall k | 0 <= k < |Filter(s, p)|
        ensures exists m :: 0 <= m < |s| && Filter(s, p)[k] == s[m] && Filter(u, q)[k] == u[m]
      {
        if k < off {
          assert Filter(s, p)[k] == s[0] && Filter(u, q)[k] == u[0];
        } else {
          var m :| 0 <= m < |s1| && fs[k - off] == s1[m] && fu[k - off] == u1[m];
          assert Filter(s, p)[k] == s[m + 1] && Filter(u, q)[k] == u[m + 1];
        }
      }
    }
  }
}
