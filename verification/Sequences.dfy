/** Facts about finite sequences that several components rely on. */
module Sequences {

  /** No element occurs at two positions. */
  ghost predicate NoDup<T>(s: seq<T>) {
    forall i, j :: 0 <= i < j < |s| ==> s[i] != s[j]
  }

  ghost function Elems<T>(s: seq<T>): set<T> {
    set x | x in s
  }

  /** The members of `ds` that lie in `s`, in the order of `ds`. */
  ghost function Select<T>(ds: seq<T>, s: set<T>): (r: seq<T>)
    ensures forall d :: d in r ==> d in ds && d in s
    ensures forall d :: d in ds && d in s ==> d in r
    ensures NoDup(ds) ==> NoDup(r)
  {
    if ds == [] then []
    else
      var d := ds[|ds| - 1];
      Select(ds[..|ds| - 1], s) + (if d in s then [d] else [])
  }

  lemma JoinNoDup<T>(a: seq<T>, b: seq<T>)
    requires NoDup(a) && NoDup(b)
    requires forall x :: x in b ==> x !in a
    ensures NoDup(a + b)
  {
    forall i, j | 0 <= i < j < |a + b| ensures (a + b)[i] != (a + b)[j] {
      if i < |a| && |a| <= j {
        assert (a + b)[j] in b && (a + b)[i] in a;
      }
    }
  }

  lemma {:induction false} NoDupCard<T>(s: seq<T>)
    requires NoDup(s)
    ensures |Elems(s)| == |s|
  {
    if s != [] {
      var rest, x := s[..|s| - 1], s[|s| - 1];
      assert NoDup(rest) && x !in rest;
      hide NoDup;
      NoDupCard(rest);
      assert s == rest + [x];
      assert Elems(s) == Elems(rest) + {x};
    }
  }

  lemma ElemsSubset<T>(a: seq<T>, b: seq<T>)
    requires Elems(a) <= Elems(b)
    ensures forall x :: x in a ==> x in b
  {
    forall x | x in a ensures x in b { assert x in Elems(a); }
  }

  lemma SubsetCard<T>(a: set<T>, b: set<T>)
    requires a <= b
    ensures |a| <= |b|
  {
    assert |b| == |a| + |b - a| by { assert b == a + (b - a); }
  }

  /** A sequence longer than the set it draws from repeats an element. */
  lemma Pigeonhole<T>(p: seq<T>, s: set<T>) returns (i: nat, j: nat)
    requires |p| > |s|
    requires forall x :: x in p ==> x in s
    ensures i < j < |p| && p[i] == p[j]
  {
    if NoDup(p) {
      NoDupCard(p);
      SubsetCard(Elems(p), s);
      assert false;
    }
    i, j :| 0 <= i < j < |p| && p[i] == p[j];
  }

  ghost function IndexOf<T>(s: seq<T>, x: T): (i: nat)
    requires x in s
    ensures i < |s| && s[i] == x
  {
    if s[0] == x then 0 else 1 + IndexOf(s[1..], x)
  }

  lemma IndexOfUnique<T>(s: seq<T>, i: nat)
    requires NoDup(s) && i < |s|
    ensures s[i] in s && IndexOf(s, s[i]) == i
  {
  }

  lemma Assoc<T>(a: seq<T>, b: seq<T>, c: seq<T>)
    ensures a + b + c == a + (b + c)
  {
  }
}
