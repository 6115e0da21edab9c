/**
  De-duplication of a change queue: the distinct entries of a sequence, each
  kept at its first occurrence, in the order in which they first occur.
  Both queue drains of the session are specified by `Distinct`.
 */
module Dedup {

  /** No entry occurs twice. */
  ghost predicate NoDup<T>(s: seq<T>) {
    forall i, j :: 0 <= i < j < |s| ==> s[i] != s[j]
  }

  /** The index of the first occurrence of `x` in `s`. */
  function FirstIndex<T(==)>(s: seq<T>, x: T): (k: nat)
    requires x in s
    ensures k < |s| && s[k] == x && x !in s[..k]
  {
    if s[0] == x then 0 else 1 + FirstIndex(s[1..], x)
  }

  /**
    The distinct entries of `s` in first-occurrence order. It is defined by the
    last entry, the way a drain that dequeues front to back builds its result:
    the entry is appended unless the list built so far already contains it.
   */
  function Distinct<T(==)>(s: seq<T>): seq<T> {
    if s == [] then []
    else
      var r := Distinct(s[..|s| - 1]);
      if s[|s| - 1] in r then r else r + [s[|s| - 1]]
  }

  /** One more dequeued entry extends the drain's result as `Distinct` says. */
  lemma DistinctSnoc<T>(s: seq<T>, x: T)
    ensures Distinct(s + [x]) == if x in Distinct(s) then Distinct(s) else Distinct(s) + [x]
  {
    assert (s + [x])[..|s + [x]| - 1] == s;
  }

  /** The drain returns exactly the entries that were queued. */
  lemma {:induction false} DistinctSameElements<T>(s: seq<T>)
    ensures forall x :: x in Distinct(s) <==> x in s
  {
    if s != [] {
      var p := s[..|s| - 1];
      DistinctSameElements(p);
      assert s == p + [s[|s| - 1]];
    }
  }

  /** The drain returns no entry twice. */
  lemma {:induction false} DistinctNoDup<T>(s: seq<T>)
    ensures NoDup(Distinct(s))
  {
    if s != [] {
      DistinctNoDup(s[..|s| - 1]);
    }
  }

  /** First occurrences in a prefix stay first occurrences after an append. */
  lemma FirstIndexSnoc<T>(s: seq<T>, y: T, x: T)
    requires x in s
    ensures FirstIndex(s + [y], x) == FirstIndex(s, x)
  {
    if s[0] != x {
      assert (s + [y])[1..] == s[1..] + [y];
      FirstIndexSnoc(s[1..], y, x);
    }
  }

  /** One step of the order proof: appending `y` keeps the first-occurrence order. */
  lemma FirstOccurrenceOrderSnoc<T>(p: seq<T>, y: T, i: nat, j: nat)
    requires forall x :: x in Distinct(p) <==> x in p
    requires forall i, j :: 0 <= i < j < |Distinct(p)| ==>
               FirstIndex(p, Distinct(p)[i]) < FirstIndex(p, Distinct(p)[j])
    requires i < j < |Distinct(p + [y])|
    ensures Distinct(p + [y])[i] in p + [y] && Distinct(p + [y])[j] in p + [y]
    ensures FirstIndex(p + [y], Distinct(p + [y])[i]) < FirstIndex(p + [y], Distinct(p + [y])[j])
  {
    DistinctSnoc(p, y);
    var r := Distinct(p);
    var d := Distinct(p + [y]);
    assert d[i] == r[i];
    FirstIndexSnoc(p, y, r[i]);
    if j < |r| {
      assert d[j] == r[j];
      FirstIndexSnoc(p, y, r[j]);
    } else {
      assert d[j] == y && y !in p;
      FirstIndexAppended(p, y);
    }
  }

  /** An entry appended to a sequence without it first occurs at the end. */
  lemma FirstIndexAppended<T>(p: seq<T>, y: T)
    requires y !in p
    ensures FirstIndex(p + [y], y) == |p|
  {
    if p != [] {
      assert (p + [y])[1..] == p[1..] + [y];
      FirstIndexAppended(p[1..], y);
    }
  }

  /**
    The drain keeps the queue's order: of two returned entries, the one
    returned first was queued first.
   */
  lemma {:induction false} DistinctFirstOccurrenceOrder<T>(s: seq<T>)
    ensures forall x :: x in Distinct(s) ==> x in s
    ensures forall i, j :: 0 <= i < j < |Distinct(s)| ==>
              FirstIndex(s, Distinct(s)[i]) < FirstIndex(s, Distinct(s)[j])
  {
    DistinctSameElements(s);
    if s != [] {
      var p, y := s[..|s| - 1], s[|s| - 1];
      assert s == p + [y];
      DistinctFirstOccurrenceOrder(p);
      DistinctSameElements(p);
      forall i, j | 0 <= i < j < |Distinct(s)|
        ensures FirstIndex(s, Distinct(s)[i]) < FirstIndex(s, Distinct(s)[j])
      {
        FirstOccurrenceOrderSnoc(p, y, i, j);
      }
    }
  }

  /** A queue without repeated entries drains to itself. */
  lemma {:induction false} DistinctOfNoDup<T>(s: seq<T>)
    requires NoDup(s)
    ensures Distinct(s) == s
  {
    if s != [] {
      var p := s[..|s| - 1];
      DistinctOfNoDup(p);
      assert s[|s| - 1] !in p;
    }
  }

  /** Draining a drained result changes nothing. */
  lemma DistinctIdempotent<T>(s: seq<T>)
    ensures Distinct(Distinct(s)) == Distinct(s)
  {
    DistinctNoDup(s);
    DistinctOfNoDup(Distinct(s));
  }
}
