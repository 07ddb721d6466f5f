/** Order-preserving filtering of sequences, shared by the toast list (which
    drops toasts by id) and by the phone-number cleaners (which drop the
    characters a pattern does not keep). */
module Seqs {

  /** The elements of `s` that satisfy `p`, in their original order: the
      meaning of JavaScript's `Array.prototype.filter`, and of
      `String.prototype.replace` with a global pattern that matches exactly
      the characters to drop. */
  function Filter<T>(p: T -> bool, s: seq<T>): (r: seq<T>)
    ensures |r| <= |s|
    ensures forall i :: 0 <= i < |r| ==> r[i] in s && p(r[i])
    ensures forall i :: 0 <= i < |s| && p(s[i]) ==> s[i] in r
  {
    if s == [] then [] else (if p(s[0]) then [s[0]] else []) + Filter(p, s[1..])
  }

  /** `a` can be obtained from `b` by deleting elements. */
  ghost predicate IsSubsequence<T>(a: seq<T>, b: seq<T>)
    decreases |b|
  {
    a == [] || (b != [] && ((a[0] == b[0] && IsSubsequence(a[1..], b[1..])) || IsSubsequence(a, b[1..])))
  }

  /** Filtering only deletes: the result is a subsequence of the input. */
  lemma {:induction false} FilterIsSubsequence<T>(p: T -> bool, s: seq<T>)
    ensures IsSubsequence(Filter(p, s), s)
  {
    if s != [] {
      FilterIsSubsequence(p, s[1..]);
      var r := Filter(p, s[1..]);
      if p(s[0]) {
        assert Filter(p, s) == [s[0]] + r;
        assert ([s[0]] + r)[1..] == r;
      } else {
        assert Filter(p, s) == r;
      }
    }
  }

  /** Filtering is a homomorphism of concatenation, so the relative order of
      the kept elements is the order they had in the input. */
  lemma {:induction false} FilterAppend<T>(p: T -> bool, a: seq<T>, b: seq<T>)
    ensures Filter(p, a + b) == Filter(p, a) + Filter(p, b)
  {
    if a == [] {
      assert a + b == b;
    } else {
      assert (a + b)[0] == a[0];
      assert (a + b)[1..] == a[1..] + b;
      FilterAppend(p, a[1..], b);
    }
  }

  /** Filtering leaves a sequence unchanged exactly when every element is kept. */
  lemma {:induction false} FilterIdentity<T>(p: T -> bool, s: seq<T>)
    ensures Filter(p, s) == s <==> forall i :: 0 <= i < |s| ==> p(s[i])
  {
    if s != [] {
      FilterIdentity(p, s[1..]);
      if !p(s[0]) {
        assert |Filter(p, s)| < |s|;
      } else {
        assert forall i :: 1 <= i < |s| ==> s[i] == s[1..][i - 1];
        if Filter(p, s) == s {
          assert Filter(p, s[1..]) == s[1..];
        }
      }
    }
  }

  /** Filtering twice with the same predicate is filtering once. */
  lemma FilterIdempotent<T>(p: T -> bool, s: seq<T>)
    ensures Filter(p, Filter(p, s)) == Filter(p, s)
  {
    FilterIdentity(p, Filter(p, s));
  }

  /** Two filters commute. */
  lemma {:induction false} FilterCommutes<T>(p: T -> bool, q: T -> bool, s: seq<T>)
    ensures Filter(p, Filter(q, s)) == Filter(q, Filter(p, s))
  {
    if s != [] {
      var x := s[0];
      var t := s[1..];
      FilterCommutes(p, q, t);
      assert Filter(q, s) == (if q(x) then [x] else []) + Filter(q, t);
      FilterAppend(p, if q(x) then [x] else [], Filter(q, t));
      assert Filter(p, s) == (if p(x) then [x] else []) + Filter(p, t);
      FilterAppend(q, if p(x) then [x] else [], Filter(p, t));
      assert Filter(p, [x]) == (if p(x) then [x] else []) by {
        assert [x][1..] == [];
      }
      assert Filter(q, [x]) == (if q(x) then [x] else []) by {
        assert [x][1..] == [];
      }
    }
  }

  /** Filtering keeps each kept value as often as it occurs, and no other. */
  lemma {:induction false} FilterMultiset<T>(p: T -> bool, s: seq<T>, x: T)
    ensures multiset(Filter(p, s))[x] == if p(x) then multiset(s)[x] else 0
  {
    if s != [] {
      FilterMultiset(p, s[1..], x);
      assert s == [s[0]] + s[1..];
      assert multiset(s) == multiset([s[0]]) + multiset(s[1..]);
      var head := if p(s[0]) then [s[0]] else [];
      assert multiset(Filter(p, s)) == multiset(head) + multiset(Filter(p, s[1..]));
    }
  }

  lemma FilterMultisetAll<T>(p: T -> bool, s: seq<T>)
    ensures forall x :: multiset(Filter(p, s))[x] == if p(x) then multiset(s)[x] else 0
  {
    forall x
      ensures multiset(Filter(p, s))[x] == if p(x) then multiset(s)[x] else 0
    {
      FilterMultiset(p, s, x);
    }
  }
}
