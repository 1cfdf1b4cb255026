/** Splitting a list of records into those whose identifier has been
    consumed and the rest, as the source does with its `matched_*` id sets. */
module Partition {
  import opened Seqs

  /** No two entries of `es` share an identifier. */
  predicate DistinctBy<E(==)>(es: seq<E>, id: E -> int) {
    forall i, j :: 0 <= i < j < |es| ==> id(es[i]) != id(es[j])
  }

  /** The identifiers occurring in `es`. */
  function IdSet<E(==)>(es: seq<E>, id: E -> int): set<int> {
    set e | e in es :: id(e)
  }

  /** The test of the comprehension below: the entry's id was not consumed. */
  function NotConsumed<E>(id: E -> int, used: set<int>): E -> bool {
    e => id(e) !in used
  }

  /** The entries of `es` whose identifier is not in `used`, in order:
      `[e for e in es if e.get('id') not in used]`. The result keeps the
      input order (a subsequence) and agrees with the generic filter. */
  function Unconsumed<E(==)>(es: seq<E>, id: E -> int, used: set<int>): (r: seq<E>)
    ensures forall e :: e in r ==> e in es && id(e) !in used
    ensures forall i :: 0 <= i < |es| && id(es[i]) !in used ==> es[i] in r
    ensures |r| <= |es|
    ensures IsSubsequence(r, es)
    ensures r == Filter(es, NotConsumed(id, used))
  {
    if |es| == 0 then []
    else
      var rest := Unconsumed(es[1..], id, used);
      if id(es[0]) !in used then
        assert ([es[0]] + rest)[1..] == rest;
        [es[0]] + rest
      else
        SubsequenceOfTail(rest, es);
        rest
  }

  /** Two different entries of a list with distinct identifiers have
      different identifiers. */
  lemma DistinctByInjective<E>(es: seq<E>, id: E -> int, x: E, y: E)
    requires DistinctBy(es, id) && x in es && y in es && x != y
    ensures id(x) != id(y)
  {
    var i :| 0 <= i < |es| && es[i] == x;
    var j :| 0 <= j < |es| && es[j] == y;
  }

  /** Lists with distinct identifiers and disjoint identifier sets
      concatenate to a list with distinct identifiers. */
  lemma DistinctByAppend<E>(a: seq<E>, b: seq<E>, id: E -> int)
    requires DistinctBy(a, id) && DistinctBy(b, id)
    requires forall e :: e in b ==> id(e) !in IdSet(a, id)
    ensures DistinctBy(a + b, id)
  {
    forall i, j | 0 <= i < j < |a + b| ensures id((a + b)[i]) != id((a + b)[j]) {
      if j >= |a| && i < |a| {
        assert (a + b)[j] in b;
        assert (a + b)[i] in a;
      }
    }
  }

  /** The identifiers of a non-empty list: the head's and the tail's; with
      distinct identifiers, the head's is not among the tail's. */
  lemma IdSetCons<E>(es: seq<E>, id: E -> int)
    requires |es| > 0
    ensures IdSet(es, id) == {id(es[0])} + IdSet(es[1..], id)
    ensures DistinctBy(es, id) ==> id(es[0]) !in IdSet(es[1..], id)
  {
    var rest := es[1..];
    assert es == [es[0]] + rest;
    if DistinctBy(es, id) {
      forall e | e in rest ensures id(e) != id(es[0]) {
        var k :| 0 <= k < |rest| && rest[k] == e;
        assert es[k + 1] == e;
      }
    }
  }

  /** A list with distinct identifiers has as many identifiers as entries. */
  lemma {:induction false} DistinctIdSetSize<E>(es: seq<E>, id: E -> int)
    requires DistinctBy(es, id)
    ensures |IdSet(es, id)| == |es|
  {
    if |es| > 0 {
      DistinctIdSetSize(es[1..], id);
      IdSetCons(es, id);
    }
  }

  /** With distinct identifiers, the entries left over plus the consumed
      identifiers that occur in the list account for the whole list. */
  lemma {:induction false} UnconsumedCount<E>(es: seq<E>, id: E -> int, used: set<int>)
    requires DistinctBy(es, id)
    ensures |Unconsumed(es, id, used)| + |used * IdSet(es, id)| == |es|
  {
    if |es| > 0 {
      var rest := es[1..];
      UnconsumedCount(rest, id, used);
      IdSetCons(es, id);
      var x := id(es[0]);
      if x in used {
        assert used * IdSet(es, id) == {x} + used * IdSet(rest, id);
        assert Unconsumed(es, id, used) == Unconsumed(rest, id, used);
      } else {
        assert used * IdSet(es, id) == used * IdSet(rest, id);
        assert Unconsumed(es, id, used) == [es[0]] + Unconsumed(rest, id, used);
      }
    }
  }

  /** When the consumed ids come from a list of `items` with distinct ids,
      all of them occurring in `es`, the entries left over and the items
      together account for the whole of `es`. */
  lemma UnconsumedCountBy<E, F>(es: seq<E>, id: E -> int, items: seq<F>, itemId: F -> int)
    requires DistinctBy(es, id) && DistinctBy(items, itemId)
    requires forall m :: m in items ==> itemId(m) in IdSet(es, id)
    ensures |Unconsumed(es, id, IdSet(items, itemId))| + |items| == |es|
  {
    var used := IdSet(items, itemId);
    DistinctIdSetSize(items, itemId);
    assert used * IdSet(es, id) == used;
    UnconsumedCount(es, id, used);
  }

  /** The records of a list whose id is not consumed are exactly the ones
      `Unconsumed` keeps. */
  lemma UnconsumedMembers<E>(es: seq<E>, id: E -> int, used: set<int>)
    ensures forall e :: e in es && id(e) !in used ==> e in Unconsumed(es, id, used)
  {
    forall e | e in es && id(e) !in used ensures e in Unconsumed(es, id, used) {
      var i :| 0 <= i < |es| && es[i] == e;
    }
  }

  /** The identifiers of a concatenation are those of its two parts. */
  lemma IdSetAppend<E>(a: seq<E>, b: seq<E>, id: E -> int)
    ensures IdSet(a + b, id) == IdSet(a, id) + IdSet(b, id)
  {
    assert forall e :: e in a + b <==> e in a || e in b;
  }

  /** The identifier set of a one-entry list. */
  lemma IdSetSingleton<E>(e: E, id: E -> int)
    ensures IdSet([e], id) == {id(e)}
  {
    assert e in [e];
    assert forall x :: x in [e] ==> x == e;
  }

  /** The identifier set depends only on which entries occur. */
  lemma SameMembersSameIds<E>(a: seq<E>, b: seq<E>, id: E -> int)
    requires forall e :: e in a <==> e in b
    ensures IdSet(a, id) == IdSet(b, id)
  {
  }
}
