/** Subsequences: the same elements in the same order, with some left out. */
module Subsequences {
  ghost predicate Subseq<T>(a: seq<T>, b: seq<T>) {
    || a == []
    || (b != [] && a[|a| - 1] == b[|b| - 1] && Subseq(a[..|a| - 1], b[..|b| - 1]))
    || (b != [] && Subseq(a, b[..|b| - 1]))
  }

  lemma SubseqLast<T>(a: seq<T>, b: seq<T>, x: T)
    requires Subseq(a, b)
    ensures Subseq(a, b + [x]) && Subseq(a + [x], b + [x])
  {
    assert (a + [x])[..|a|] == a && (b + [x])[..|b|] == b;
  }

  lemma {:induction false} SubseqLonger<T>(a: seq<T>, b: seq<T>, c: seq<T>)
    requires Subseq(a, b)
    ensures Subseq(a, b + c)
  {
    if c == [] {
      assert b + c == b;
    } else {
      SubseqLonger(a, b, c[..|c| - 1]);
      assert b + c == b + c[..|c| - 1] + [c[|c| - 1]];
      SubseqLast(a, b + c[..|c| - 1], c[|c| - 1]);
    }
  }

  lemma {:induction false} SubseqShorter<T>(a: seq<T>, x: T, b: seq<T>)
    requires Subseq(a + [x], b)
    ensures Subseq(a, b)
  {
    var init := b[..|b| - 1];
    assert (a + [x])[..|a|] == a && b == init + [b[|b| - 1]];
    if !Subseq(a, init) {
      SubseqShorter(a, x, init);
    }
    SubseqLast(a, init, b[|b| - 1]);
  }

  lemma {:induction false} SubseqPrefix<T>(a: seq<T>, c: seq<T>, b: seq<T>)
    requires Subseq(a + c, b)
    ensures Subseq(a, b)
  {
    if c == [] {
      assert a + c == a;
    } else {
      assert a + c == a + c[..|c| - 1] + [c[|c| - 1]];
      SubseqShorter(a + c[..|c| - 1], c[|c| - 1], b);
      SubseqPrefix(a, c[..|c| - 1], b);
    }
  }

  lemma {:induction false} SubseqCounts<T>(a: seq<T>, b: seq<T>)
    requires Subseq(a, b)
    ensures multiset(a) <= multiset(b) && |a| <= |b|
    ensures |a| == |b| ==> a == b
  {
    if a != [] {
      var initA, initB := a[..|a| - 1], b[..|b| - 1];
      assert a == initA + [a[|a| - 1]] && b == initB + [b[|b| - 1]];
      if a[|a| - 1] == b[|b| - 1] && Subseq(initA, initB) {
        SubseqCounts(initA, initB);
      } else {
        SubseqCounts(a, initB);
      }
    }
  }
}
