/** Facts about sequences that the FIFO arguments of the fair lock rest on. */
module Seqs {

  /** `a` is `b` with some elements left out and the others in their order. */
  ghost predicate Subseq<T>(a: seq<T>, b: seq<T>)
    decreases |b|
  {
    a == [] || (b != [] && ((a[0] == b[0] && Subseq(a[1..], b[1..])) || Subseq(a, b[1..])))
  }

  /** No element occurs twice. */
  ghost predicate Distinct<T>(s: seq<T>)
  {
    forall i, j :: 0 <= i < j < |s| ==> s[i] != s[j]
  }

  /** `ArrayList.remove(Object)`: drop the first occurrence of `x`, if there is one. */
  function RemoveFirst<T(==)>(s: seq<T>, x: T): (r: seq<T>)
    ensures |r| == if x in s then |s| - 1 else |s|
    ensures forall y :: y in r ==> y in s
  {
    if s == [] then []
    else if s[0] == x then s[1..]
    else [s[0]] + RemoveFirst(s[1..], x)
  }

  /** The position of the first occurrence of `x` in `s`. */
  function IndexOf<T(==)>(s: seq<T>, x: T): (i: nat)
    requires x in s
    ensures i < |s| && s[i] == x && x !in s[..i]
  {
    if s[0] == x then 0 else 1 + IndexOf(s[1..], x)
  }

  lemma {:induction false} SubseqRefl<T>(a: seq<T>)
    ensures Subseq(a, a)
  {
    if a != [] {
      SubseqRefl(a[1..]);
    }
  }

  lemma {:induction false} SubseqSkipPrefix<T>(a: seq<T>, p: seq<T>, b: seq<T>)
    requires Subseq(a, b)
    ensures Subseq(a, p + b)
    decreases |p|
  {
    if a != [] && p != [] {
      SubseqSkipPrefix(a, p[1..], b);
      assert (p + b)[1..] == p[1..] + b;
    } else if p == [] {
      assert p + b == b;
    }
  }

  lemma {:induction false} SubseqConcat<T>(a1: seq<T>, b1: seq<T>, a2: seq<T>, b2: seq<T>)
    requires Subseq(a1, b1) && Subseq(a2, b2)
    ensures Subseq(a1 + a2, b1 + b2)
    decreases |b1|
  {
    if a1 == [] {
      SubseqSkipPrefix(a2, b1, b2);
      assert a1 + a2 == a2;
    } else {
      assert (b1 + b2)[1..] == b1[1..] + b2;
      assert (a1 + a2)[1..] == a1[1..] + a2;
      if a1[0] == b1[0] && Subseq(a1[1..], b1[1..]) {
        SubseqConcat(a1[1..], b1[1..], a2, b2);
      } else {
        SubseqConcat(a1, b1[1..], a2, b2);
      }
    }
  }

  lemma {:induction false} SubseqTrans<T>(a: seq<T>, b: seq<T>, c: seq<T>)
    requires Subseq(a, b) && Subseq(b, c)
    ensures Subseq(a, c)
    decreases |c|
  {
    if a != [] {
      if Subseq(b, c[1..]) {
        SubseqTrans(a, b, c[1..]);
      } else if a[0] == b[0] && Subseq(a[1..], b[1..]) {
        SubseqTrans(a[1..], b[1..], c[1..]);
      } else {
        SubseqTrans(a, b[1..], c[1..]);
      }
    }
  }

  /** Removing one element keeps the others in their relative order. */
  lemma {:induction false} RemoveFirstSubseq<T>(s: seq<T>, x: T)
    ensures Subseq(RemoveFirst(s, x), s)
  {
    if s != [] {
      if s[0] == x {
        SubseqRefl(s[1..]);
        SubseqSkipPrefix(s[1..], [s[0]], s[1..]);
        assert [s[0]] + s[1..] == s;
      } else {
        RemoveFirstSubseq(s[1..], x);
        var r := RemoveFirst(s, x);
        assert r[0] == s[0] && r[1..] == RemoveFirst(s[1..], x);
      }
    }
  }

  /** `RemoveFirst` cuts out exactly the first occurrence, and is the identity when there is none. */
  lemma {:induction false} RemoveFirstShape<T>(s: seq<T>, x: T)
    ensures x !in s ==> RemoveFirst(s, x) == s
    ensures x in s ==> RemoveFirst(s, x) == s[..IndexOf(s, x)] + s[IndexOf(s, x) + 1..]
  {
    if s != [] && s[0] != x {
      RemoveFirstShape(s[1..], x);
      if x in s {
        var i := IndexOf(s[1..], x);
        assert s[..i + 1] == [s[0]] + s[1..][..i];
        assert s[i + 2..] == s[1..][i + 1..];
      } else {
        assert [s[0]] + s[1..] == s;
      }
    }
  }

  /** `RemoveFirst` takes away one copy of `x` when there is one, and nothing else. */
  lemma {:induction false} RemoveFirstMultiset<T>(s: seq<T>, x: T)
    ensures multiset(RemoveFirst(s, x)) == multiset(s) - multiset{x}
  {
    if s != [] {
      assert s == [s[0]] + s[1..];
      if s[0] != x {
        RemoveFirstMultiset(s[1..], x);
      }
    }
  }

  lemma RemoveFirstDistinct<T>(s: seq<T>, x: T)
    requires Distinct(s)
    ensures Distinct(RemoveFirst(s, x))
  {
    RemoveFirstShape(s, x);
    if x in s {
      var i := IndexOf(s, x);
      var r := s[..i] + s[i + 1..];
      forall a, b | 0 <= a < b < |r| ensures r[a] != r[b] {
        var a' := if a < i then a else a + 1;
        var b' := if b < i then b else b + 1;
        assert r[a] == s[a'] && r[b] == s[b'];
      }
    }
  }

  lemma AppendDistinct<T>(s: seq<T>, x: T)
    requires Distinct(s) && x !in s
    ensures Distinct(s + [x])
  {
    var r := s + [x];
    forall a, b | 0 <= a < b < |r| ensures r[a] != r[b] {
      if b == |s| {
        assert r[a] == s[a];
      } else {
        assert r[a] == s[a] && r[b] == s[b];
      }
    }
  }

  lemma Assoc<T>(x: seq<T>, y: seq<T>, z: seq<T>)
    ensures (x + y) + z == x + (y + z)
  {
  }

  lemma SubseqPrepend<T>(p: seq<T>, a: seq<T>, b: seq<T>)
    requires Subseq(a, b)
    ensures Subseq(p + a, p + b)
  {
    SubseqRefl(p);
    SubseqConcat(p, p, a, b);
  }

  lemma SubseqAppend<T>(a: seq<T>, b: seq<T>, p: seq<T>)
    requires Subseq(a, b)
    ensures Subseq(a + p, b + p)
  {
    SubseqRefl(p);
    SubseqConcat(a, b, p, p);
  }

  /** Two steps that each keep a queue's order compose: if `acq1 + q1` orders
      `q0 + arr1`, and `acq2 + q2` orders `q1 + arr2`, then all acquirers
      followed by `q2` order `q0` followed by all arrivals. */
  lemma SubseqChain<T>(acq1: seq<T>, q1: seq<T>, q0: seq<T>, arr1: seq<T>,
                       acq2: seq<T>, q2: seq<T>, arr2: seq<T>)
    requires Subseq(acq1 + q1, q0 + arr1)
    requires Subseq(acq2 + q2, q1 + arr2)
    ensures Subseq((acq1 + acq2) + q2, q0 + (arr1 + arr2))
  {
    var a, b, c := (acq1 + acq2) + q2, (acq1 + q1) + arr2, q0 + (arr1 + arr2);
    Assoc(acq1, acq2, q2);
    Assoc(acq1, q1, arr2);
    Assoc(q0, arr1, arr2);
    SubseqPrepend(acq1, acq2 + q2, q1 + arr2);
    SubseqAppend(acq1 + q1, q0 + arr1, arr2);
    SubseqTrans(a, b, c);
  }
}
