/** The result of a lookup that may find nothing. */
module Options {
  datatype Option<+T> = None | Some(value: T)
}

/** The results of src/net/net_errors.h that the models name. */
module NetErrors {
  const OK: int := 0
  const ERR_IO_PENDING: int := -1
  const ERR_UNEXPECTED: int := -9
}

/** Facts about slices and concatenations, stated once for the solver's benefit. */
module Sequences {
  lemma Associative<T>(a: seq<T>, b: seq<T>, c: seq<T>)
    ensures a + (b + c) == a + b + c
  {
  }

  /** next continues s[lo..hi] in s. */
  lemma ExtendSlice<T>(s: seq<T>, lo: nat, hi: nat, next: seq<T>)
    requires lo <= hi && hi + |next| <= |s|
    requires next == s[hi..hi + |next|]
    ensures s[lo..hi] + next == s[lo..hi + |next|]
  {
  }

  lemma DropConcat<T>(s: seq<T>, n: nat, t: seq<T>)
    requires n <= |s|
    ensures (s + t)[n..] == s[n..] + t
  {
  }

  lemma SliceOfDrop<T>(s: seq<T>, n: nat, part: seq<T>)
    requires n + |part| <= |s| && part == s[n..n + |part|]
    ensures part == s[n..][..|part|]
    ensures s[n + |part|..] == s[n..][|part|..]
  {
  }

  function Flatten<T>(ss: seq<seq<T>>): seq<T> {
    if ss == [] then [] else ss[0] + Flatten(ss[1..])
  }

  lemma {:induction false} FlattenSnoc<T>(ss: seq<seq<T>>, s: seq<T>)
    ensures Flatten(ss + [s]) == Flatten(ss) + s
  {
    if ss == [] {
      assert [s][1..] == [];
    } else {
      FlattenSnoc(ss[1..], s);
      assert (ss + [s])[1..] == ss[1..] + [s];
    }
  }

  lemma {:induction false} FlattenSplit<T>(ss: seq<seq<T>>, k: nat)
    requires k <= |ss|
    ensures Flatten(ss) == Flatten(ss[..k]) + Flatten(ss[k..])
  {
    if k == 0 {
      assert ss[..0] == [] && ss[0..] == ss;
    } else {
      FlattenSplit(ss[1..], k - 1);
      assert ss[1..][..k - 1] == ss[..k][1..];
      assert ss[1..][k - 1..] == ss[k..];
    }
  }
}

/** Sizes of finite sets. */
module Sets {
  lemma SubsetSize<T>(a: set<T>, b: set<T>)
    requires a <= b
    ensures |a| <= |b|
    ensures |a| == |b| ==> a == b
  {
    assert a + (b - a) == b;
  }

  /** The elements of the first n places of s. */
  function Elements<T(!new)>(s: seq<T>, n: nat): (r: set<T>)
    requires n <= |s|
    ensures forall x :: x in r <==> x in s[..n]
  {
    if n == 0 then {} else
      assert s[..n] == s[..n - 1] + [s[n - 1]];
      Elements(s, n - 1) + {s[n - 1]}
  }

  lemma {:induction false} ElementsSize<T(!new)>(s: seq<T>, n: nat)
    requires n <= |s| && forall i, j :: 0 <= i < j < |s| ==> s[i] != s[j]
    ensures |Elements(s, n)| == n
  {
    if n > 0 {
      ElementsSize(s, n - 1);
      assert s[n - 1] !in s[..n - 1];
    }
  }

  function Below(n: nat): (r: set<nat>)
    ensures forall x: nat :: x in r <==> x < n
    ensures |r| == n
  {
    if n == 0 then {} else Below(n - 1) + {n - 1}
  }

  /** n different numbers below n are all of them. */
  lemma AllNumbersOccur(s: seq<nat>, x: nat)
    requires forall i :: 0 <= i < |s| ==> s[i] < |s|
    requires forall i, j :: 0 <= i < j < |s| ==> s[i] != s[j]
    requires x < |s|
    ensures x in s
  {
    ElementsSize(s, |s|);
    assert s[..|s|] == s;
    SubsetSize(Elements(s, |s|), Below(|s|));
  }
}
