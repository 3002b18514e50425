/** `list(dict.fromkeys(xs))`: drop repeated entries, keeping each value at
    the place where it first occurs. app.py uses it for the seed list and for
    the query variants of a seed. */
module OrderedSet {

  predicate NoDup<T(==)>(s: seq<T>) {
    forall i, j :: 0 <= i < j < |s| ==> s[i] != s[j]
  }

  /** The index at which `x` first occurs in `s`. */
  function IndexOf<T(==)>(s: seq<T>, x: T): (i: nat)
    requires x in s
    ensures i < |s| && s[i] == x
    ensures forall k :: 0 <= k < i ==> s[k] != x
  {
    if s[0] == x then 0 else 1 + IndexOf(s[1..], x)
  }

  /** The first occurrences of the values of `s`, in the order they occur. */
  function Dedupe<T(==)>(s: seq<T>): (r: seq<T>)
    ensures NoDup(r)
    ensures forall i :: 0 <= i < |r| ==> r[i] in s
    ensures forall i :: 0 <= i < |s| ==> s[i] in r
    ensures |r| <= |s|
  {
    if s == [] then []
    else
      var prev := Dedupe(s[..|s| - 1]);
      var x := s[|s| - 1];
      assert s == s[..|s| - 1] + [x];
      if x in prev then prev else prev + [x]
  }

  lemma IndexOfSnoc<T>(s: seq<T>, x: T, y: T)
    requires y in s
    ensures IndexOf(s + [x], y) == IndexOf(s, y)
  {
    var i, j := IndexOf(s + [x], y), IndexOf(s, y);
    assert (s + [x])[j] == y;
  }

  /** The values are kept in the order of their first occurrence. */
  lemma {:induction false} DedupeKeepsFirstOrder<T>(s: seq<T>)
    ensures forall i, j :: 0 <= i < j < |Dedupe(s)| ==>
      IndexOf(s, Dedupe(s)[i]) < IndexOf(s, Dedupe(s)[j])
  {
    if s != [] {
      var p, x := s[..|s| - 1], s[|s| - 1];
      assert s == p + [x];
      DedupeKeepsFirstOrder(p);
      var prev, r := Dedupe(p), Dedupe(s);
      forall i, j | 0 <= i < j < |r|
        ensures IndexOf(s, r[i]) < IndexOf(s, r[j])
      {
        assert r[i] == prev[i];
        IndexOfSnoc(p, x, r[i]);
        if j < |prev| {
          assert r[j] == prev[j];
          IndexOfSnoc(p, x, r[j]);
        } else {
          assert r[j] == x && x !in p;
          assert IndexOf(s, x) == |p|;
        }
      }
    }
  }

  /** A list without repeats is left as it is. */
  lemma {:induction false} DedupeOfDistinct<T>(s: seq<T>)
    requires NoDup(s)
    ensures Dedupe(s) == s
  {
    if s != [] {
      var p, x := s[..|s| - 1], s[|s| - 1];
      assert s == p + [x];
      DedupeOfDistinct(p);
      assert x !in p;
    }
  }

  /** The first entry always survives, in first place. */
  lemma {:induction false} DedupeKeepsHead<T>(s: seq<T>)
    requires s != []
    ensures Dedupe(s) != [] && Dedupe(s)[0] == s[0]
  {
    if |s| > 1 {
      var p := s[..|s| - 1];
      DedupeKeepsHead(p);
    }
  }
}
