/** What it means that one sequence is an end part of another, or can be had from it by leaving
    elements out. */
module Subsequences {

  predicate IsSuffix<T(==)>(a: seq<T>, b: seq<T>) {
    |a| <= |b| && a == b[|b| - |a|..]
  }

  lemma RestIsSuffix<T>(b: seq<T>, k: nat)
    requires k <= |b|
    ensures IsSuffix(b[k..], b)
  {
  }

  /** a can be had from b by leaving elements out. */
  predicate Subsequence<T(==)>(a: seq<T>, b: seq<T>) {
    a == [] || (b != [] && ((a[0] == b[0] && Subsequence(a[1..], b[1..])) || Subsequence(a, b[1..])))
  }

  lemma {:induction false} SuffixIsSubsequence<T>(a: seq<T>, b: seq<T>)
    requires IsSuffix(a, b)
    ensures Subsequence(a, b)
  {
    if a != [] {
      if |a| == |b| {
        SuffixIsSubsequence(a[1..], b[1..]);
      } else {
        SuffixIsSubsequence(a, b[1..]);
      }
    }
  }

  lemma {:induction false} SubsequenceTransitive<T>(a: seq<T>, b: seq<T>, c: seq<T>)
    requires Subsequence(a, b) && Subsequence(b, c)
    ensures Subsequence(a, c)
    decreases |c|
  {
    if a != [] {
      if b[0] == c[0] && Subsequence(b[1..], c[1..]) {
        if a[0] == b[0] && Subsequence(a[1..], b[1..]) {
          SubsequenceTransitive(a[1..], b[1..], c[1..]);
        } else {
          SubsequenceTransitive(a, b[1..], c[1..]);
        }
      } else {
        SubsequenceTransitive(a, b, c[1..]);
      }
    }
  }

  lemma {:induction false} SubsequenceAfter<T>(front: seq<T>, a: seq<T>, b: seq<T>)
    requires Subsequence(a, b)
    ensures Subsequence(front + a, front + b)
  {
    if front == [] {
      assert front + a == a && front + b == b;
    } else {
      SubsequenceAfter(front[1..], a, b);
      assert (front + a)[1..] == front[1..] + a && (front + b)[1..] == front[1..] + b;
    }
  }

  lemma {:induction false} SubsequenceBefore<T>(a: seq<T>, b: seq<T>, back: seq<T>)
    requires Subsequence(a, b)
    ensures Subsequence(a + back, b + back)
    decreases |b|
  {
    if a == [] {
      assert a + back == back;
      SuffixIsSubsequence(back, b + back);
    } else {
      assert (b + back)[1..] == b[1..] + back && (a + back)[1..] == a[1..] + back;
      if a[0] == b[0] && Subsequence(a[1..], b[1..]) {
        SubsequenceBefore(a[1..], b[1..], back);
      } else {
        SubsequenceBefore(a, b[1..], back);
      }
    }
  }
}
