/**
 * Sequence utilities shared by the name checker: duplicate-freedom, the
 * index of an element's first occurrence, and order-preserving removal of
 * repeats (the effect of `list(dict.fromkeys(xs))` and of the
 * "append if not already collected" loop).
 */
module Sequences {

  /** No element occurs twice. */
  ghost predicate NoDup<T>(s: seq<T>) {
    forall i, j :: 0 <= i < j < |s| ==> s[i] != s[j]
  }

  /** The position at which `x` first occurs in `s`. */
  function FirstIndex<T(==,!new)>(s: seq<T>, x: T): (i: nat)
    requires x in s
    ensures i < |s| && s[i] == x
    ensures forall j :: 0 <= j < i ==> s[j] != x
  {
    if s[0] == x then 0 else 1 + FirstIndex(s[1..], x)
  }

  /**
   * The elements of `s` that satisfy `keep`, each kept at its first
   * occurrence only, in the order of those first occurrences. Defined by
   * walking `s` from the front and appending an element unless it was
   * already collected, as a loop over `s` does.
   */
  function FirstOccurrences<T(==,!new)>(s: seq<T>, keep: T -> bool): (r: seq<T>)
    ensures forall x :: x in r <==> x in s && keep(x)
    ensures NoDup(r)
  {
    if s == [] then []
    else
      var r := FirstOccurrences(s[..|s| - 1], keep);
      var x := s[|s| - 1];
      if keep(x) && x !in r then r + [x] else r
  }

  /** Removal of repeats keeping first occurrences: `list(dict.fromkeys(s))`. */
  function Dedup<T(==,!new)>(s: seq<T>): seq<T> {
    FirstOccurrences(s, KeepAll())
  }

  /** The predicate that keeps every element. */
  function KeepAll<T>(): T -> bool {
    _ => true
  }

  /** One more element at the end: it is appended iff it is kept and new. */
  lemma FirstOccurrencesSnoc<T(!new)>(s: seq<T>, x: T, keep: T -> bool)
    ensures FirstOccurrences(s + [x], keep)
         == if keep(x) && x !in FirstOccurrences(s, keep)
            then FirstOccurrences(s, keep) + [x]
            else FirstOccurrences(s, keep)
  {
    assert (s + [x])[..|s|] == s;
  }

  /** Appending keeps the first occurrences of the elements already present. */
  lemma FirstIndexSnoc<T(!new)>(s: seq<T>, x: T, y: T)
    requires y in s
    ensures FirstIndex(s + [x], y) == FirstIndex(s, y)
  {
    var k, m := FirstIndex(s, y), FirstIndex(s + [x], y);
    assert (s + [x])[k] == y;
  }

  /** A new element appended at the end first occurs there. */
  lemma FirstIndexAppendNew<T(!new)>(s: seq<T>, x: T)
    requires x !in s
    ensures FirstIndex(s + [x], x) == |s|
  {
    assert (s + [x])[|s|] == x;
  }

  /**
   * The collected elements stand in the order of their first occurrences
   * in `s`.
   */
  lemma {:induction false} FirstOccurrencesOrder<T(!new)>(s: seq<T>, keep: T -> bool, i: nat, j: nat)
    requires i < j < |FirstOccurrences(s, keep)|
    ensures FirstIndex(s, FirstOccurrences(s, keep)[i]) < FirstIndex(s, FirstOccurrences(s, keep)[j])
  {
    var p, x := s[..|s| - 1], s[|s| - 1];
    assert s == p + [x];
    FirstOccurrencesSnoc(p, x, keep);
    var r, rp := FirstOccurrences(s, keep), FirstOccurrences(p, keep);
    assert r[i] in rp;
    FirstIndexSnoc(p, x, r[i]);
    if j < |rp| {
      FirstOccurrencesOrder(p, keep, i, j);
      assert r[j] in rp;
      FirstIndexSnoc(p, x, r[j]);
    } else {
      assert r[j] == x && x !in p;
      FirstIndexAppendNew(p, x);
    }
  }

  /** On a sequence without repeats whose elements are all kept, nothing is removed. */
  lemma {:induction false} FirstOccurrencesOfDistinct<T(!new)>(s: seq<T>, keep: T -> bool)
    requires NoDup(s)
    requires forall k :: 0 <= k < |s| ==> keep(s[k])
    ensures FirstOccurrences(s, keep) == s
  {
    if s != [] {
      var p, x := s[..|s| - 1], s[|s| - 1];
      assert s == p + [x];
      FirstOccurrencesOfDistinct(p, keep);
      assert x !in p;
      FirstOccurrencesSnoc(p, x, keep);
    }
  }

  /** `Dedup` keeps every distinct element once, in order of first occurrence. */
  lemma DedupSpec<T(!new)>(s: seq<T>)
    ensures forall x :: x in Dedup(s) <==> x in s
    ensures NoDup(Dedup(s))
    ensures forall i, j :: 0 <= i < j < |Dedup(s)| ==>
              FirstIndex(s, Dedup(s)[i]) < FirstIndex(s, Dedup(s)[j])
    ensures NoDup(s) ==> Dedup(s) == s
  {
    forall i, j | 0 <= i < j < |Dedup(s)|
      ensures FirstIndex(s, Dedup(s)[i]) < FirstIndex(s, Dedup(s)[j])
    {
      FirstOccurrencesOrder(s, KeepAll(), i, j);
    }
    if NoDup(s) {
      FirstOccurrencesOfDistinct(s, KeepAll());
    }
  }
}
