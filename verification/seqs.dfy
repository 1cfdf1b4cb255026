/** Order-preserving list operations shared by the model: filtering (Python
    list comprehensions with an `if`), subsequences, duplicate-freedom and
    enumerations of finite sets. */
module Seqs {

  /** The elements of `s` that satisfy `p`, in their original order. */
  function Filter<T>(s: seq<T>, p: T -> bool): (r: seq<T>)
    ensures |r| <= |s|
    ensures forall x :: x in r ==> x in s && p(x)
  {
    if |s| == 0 then []
    else if p(s[0]) then [s[0]] + Filter(s[1..], p)
    else Filter(s[1..], p)
  }

  /** `r` can be obtained from `s` by deleting elements. */
  predicate IsSubsequence<T(==)>(r: seq<T>, s: seq<T>)
    decreases |s|
  {
    if |r| == 0 then true
    else if |s| == 0 then false
    else if r[0] == s[0] then IsSubsequence(r[1..], s[1..])
    else IsSubsequence(r, s[1..])
  }

  predicate NoDuplicates<T(==)>(s: seq<T>) {
    forall i, j :: 0 <= i < j < |s| ==> s[i] != s[j]
  }

  /** `s` lists every element of `S` exactly once, in some order: what a
      `for x in S` loop over a Python set visits. */
  predicate IsEnumeration<T(==)>(s: seq<T>, S: set<T>) {
    && NoDuplicates(s)
    && (forall i :: 0 <= i < |s| ==> s[i] in S)
    && (forall x :: x in S ==> x in s)
  }

  /** Flattening of a list of lists. */
  function Concat<T>(ss: seq<seq<T>>): (r: seq<T>)
  {
    if |ss| == 0 then [] else ss[0] + Concat(ss[1..])
  }

  /** Every element satisfying the predicate survives the filter. */
  lemma {:induction false} FilterKeeps<T>(s: seq<T>, p: T -> bool, x: T)
    requires x in s && p(x)
    ensures x in Filter(s, p)
  {
    if s[0] != x {
      FilterKeeps(s[1..], p, x);
    }
  }

  /** A filter keeps exactly the occurrences of satisfying elements. */
  lemma {:induction false} FilterOccurrences<T>(s: seq<T>, p: T -> bool)
    ensures forall x :: multiset(Filter(s, p))[x] == if p(x) then multiset(s)[x] else 0
  {
    if |s| > 0 {
      FilterOccurrences(s[1..], p);
      assert s == [s[0]] + s[1..];
    }
  }

  /** A filter preserves the relative order of what it keeps. */
  lemma {:induction false} FilterIsSubsequence<T>(s: seq<T>, p: T -> bool)
    ensures IsSubsequence(Filter(s, p), s)
  {
    if |s| > 0 {
      FilterIsSubsequence(s[1..], p);
      if !p(s[0]) {
        SubsequenceOfTail(Filter(s[1..], p), s);
      }
    }
  }

  lemma {:induction false} SubsequenceOfTail<T>(r: seq<T>, s: seq<T>)
    requires |s| > 0 && IsSubsequence(r, s[1..])
    ensures IsSubsequence(r, s)
    decreases |s|, 0
  {
    if |r| > 0 && r[0] == s[0] {
      SubsequenceDropHead(r, s[1..]);
    }
  }

  lemma {:induction false} SubsequenceDropHead<T>(r: seq<T>, t: seq<T>)
    requires |r| > 0 && IsSubsequence(r, t)
    ensures IsSubsequence(r[1..], t)
    decreases |t|, 1
  {
    if r[0] == t[0] {
      SubsequenceOfTail(r[1..], t);
    } else {
      SubsequenceDropHead(r, t[1..]);
      SubsequenceOfTail(r[1..], t);
    }
  }

  /** A filter that rejects nothing is the identity. */
  lemma {:induction false} FilterAll<T>(s: seq<T>, p: T -> bool)
    requires forall i :: 0 <= i < |s| ==> p(s[i])
    ensures Filter(s, p) == s
  {
    if |s| > 0 {
      FilterAll(s[1..], p);
    }
  }

  /** A filter that accepts nothing yields the empty list. */
  lemma {:induction false} FilterNone<T>(s: seq<T>, p: T -> bool)
    requires forall i :: 0 <= i < |s| ==> !p(s[i])
    ensures Filter(s, p) == []
  {
    if |s| > 0 {
      FilterNone(s[1..], p);
    }
  }

  /** Filtering distributes over concatenation. */
  lemma {:induction false} FilterAppend<T>(s: seq<T>, t: seq<T>, p: T -> bool)
    ensures Filter(s + t, p) == Filter(s, p) + Filter(t, p)
  {
    if |s| == 0 {
      assert s + t == t;
    } else {
      assert (s + t)[1..] == s[1..] + t;
      FilterAppend(s[1..], t, p);
    }
  }

  /** Filters by complementary predicates split a list. */
  lemma {:induction false} FilterComplement<T>(s: seq<T>, p: T -> bool, q: T -> bool)
    requires forall x :: q(x) == !p(x)
    ensures |Filter(s, p)| + |Filter(s, q)| == |s|
  {
    if |s| > 0 {
      FilterComplement(s[1..], p, q);
    }
  }

  /** An enumeration of a set has as many entries as the set has elements. */
  lemma {:induction false} EnumerationLength<T>(s: seq<T>, S: set<T>)
    requires IsEnumeration(s, S)
    ensures |s| == |S|
    decreases |s|
  {
    if |s| > 0 {
      var x := s[0];
      assert x in S;
      var rest := s[1..];
      assert forall j :: 0 <= j < |rest| ==> rest[j] == s[j + 1];
      assert x !in rest;
      assert forall y :: y in rest <==> y in S - {x} by {
        forall y ensures y in rest <==> y in S - {x} {
          if y in S - {x} {
            assert y in s;
            var k :| 0 <= k < |s| && s[k] == y;
            assert k != 0;
            assert rest[k - 1] == y;
          }
        }
      }
      EnumerationLength(rest, S - {x});
    } else {
      assert forall y :: y !in S;
      assert S == {};
    }
  }

  /** The elements of `s` other than `x`, in order. */
  function Without<T(==)>(s: seq<T>, x: T): (r: seq<T>)
    ensures |r| <= |s|
    ensures forall i :: 0 <= i < |r| ==> r[i] in s && r[i] != x
    ensures forall i :: 0 <= i < |s| && s[i] != x ==> s[i] in r
  {
    if |s| == 0 then []
    else if s[0] == x then Without(s[1..], x)
    else [s[0]] + Without(s[1..], x)
  }

  /** The first occurrence of every element of `s`, in order of first
      occurrence: the head, then the rest with the head removed. */
  function Dedup<T(==)>(s: seq<T>): (r: seq<T>)
    ensures NoDuplicates(r)
    ensures forall i :: 0 <= i < |r| ==> r[i] in s
    ensures forall i :: 0 <= i < |s| ==> s[i] in r
    decreases |s|
  {
    if |s| == 0 then []
    else
      var rest := Dedup(Without(s[1..], s[0]));
      assert forall k :: 0 < k < |[s[0]] + rest| ==> ([s[0]] + rest)[k] == rest[k - 1];
      [s[0]] + rest
  }

  /** Appending one element to the input of `Dedup` appends it to the output
      unless it already occurred. */
  lemma {:induction false} DedupSnoc<T>(s: seq<T>, x: T)
    ensures Dedup(s + [x]) == if x in s then Dedup(s) else Dedup(s) + [x]
    decreases |s|
  {
    if |s| == 0 {
      assert [] + [x] == [x];
      assert Without([x][1..], x) == [];
    } else {
      var h := s[0];
      var t := s[1..];
      assert (s + [x])[0] == h;
      assert (s + [x])[1..] == t + [x];
      assert Dedup(s + [x]) == [h] + Dedup(Without(t + [x], h));
      assert Dedup(s) == [h] + Dedup(Without(t, h));
      if x == h {
        WithoutSnocSame(t, x);
      } else {
        var w := Without(t, h);
        WithoutSnocOther(t, h, x);
        DedupSnoc(w, x);
        WithoutMember(t, h, x);
        assert x in s <==> x in t;
        assert x in w <==> x in s;
        if x in s {
          assert Dedup(s + [x]) == [h] + Dedup(w);
        } else {
          assert Dedup(s + [x]) == [h] + (Dedup(w) + [x]);
          assert [h] + (Dedup(w) + [x]) == ([h] + Dedup(w)) + [x];
        }
      }
    }
  }

  lemma WithoutMember<T>(s: seq<T>, h: T, x: T)
    requires x != h
    ensures x in Without(s, h) <==> x in s
  {
    var w := Without(s, h);
    if x in s {
      var i :| 0 <= i < |s| && s[i] == x;
    }
    if x in w {
      var i :| 0 <= i < |w| && w[i] == x;
    }
  }

  lemma {:induction false} WithoutSnocSame<T>(s: seq<T>, x: T)
    ensures Without(s + [x], x) == Without(s, x)
  {
    if |s| == 0 {
      assert [] + [x] == [x];
    } else {
      assert (s + [x])[1..] == s[1..] + [x];
      WithoutSnocSame(s[1..], x);
    }
  }

  lemma {:induction false} WithoutSnocOther<T>(s: seq<T>, h: T, x: T)
    requires x != h
    ensures Without(s + [x], h) == Without(s, h) + [x]
  {
    if |s| == 0 {
      assert [] + [x] == [x];
      assert Without([x][1..], h) == [];
    } else {
      assert (s + [x])[1..] == s[1..] + [x];
      WithoutSnocOther(s[1..], h, x);
    }
  }

  /** A list without repetitions is its own `Dedup`. */
  lemma {:induction false} DedupOfDistinct<T>(s: seq<T>)
    requires NoDuplicates(s)
    ensures Dedup(s) == s
  {
    if |s| > 0 {
      WithoutAbsent(s[1..], s[0]);
      DedupOfDistinct(s[1..]);
    }
  }

  lemma {:induction false} WithoutAbsent<T>(s: seq<T>, x: T)
    requires x !in s
    ensures Without(s, x) == s
  {
    if |s| > 0 {
      WithoutAbsent(s[1..], x);
    }
  }

  /** The append-if-absent loop: each element of `xs`, in turn, appended to
      `acc` unless `acc` already holds it. */
  function AppendNew<T(==)>(acc: seq<T>, xs: seq<T>): seq<T>
    decreases |xs|
  {
    if |xs| == 0 then acc
    else AppendNew(if xs[0] in acc then acc else acc + [xs[0]], xs[1..])
  }

  /** The loop processes its input left to right: one more element at the
      end is one more step. */
  lemma {:induction false} AppendNewSnoc<T>(acc: seq<T>, xs: seq<T>, x: T)
    ensures AppendNew(acc, xs + [x]) == (var r := AppendNew(acc, xs); if x in r then r else r + [x])
    decreases |xs|
  {
    if |xs| == 0 {
      assert xs + [x] == [x];
    } else {
      assert (xs + [x])[1..] == xs[1..] + [x];
      AppendNewSnoc(if xs[0] in acc then acc else acc + [xs[0]], xs[1..], x);
    }
  }

  /** Starting from a list without repetitions, the loop yields the first
      occurrences of the start followed by the input. */
  lemma {:induction false} AppendNewIsDedup<T>(acc: seq<T>, xs: seq<T>)
    requires NoDuplicates(acc)
    ensures AppendNew(acc, xs) == Dedup(acc + xs)
    decreases |xs|
  {
    if |xs| == 0 {
      assert acc + xs == acc;
      DedupOfDistinct(acc);
    } else {
      var init := xs[..|xs| - 1];
      var x := xs[|xs| - 1];
      assert xs == init + [x];
      AppendNewIsDedup(acc, init);
      AppendNewSnoc(acc, init, x);
      assert acc + xs == (acc + init) + [x];
      DedupSnoc(acc + init, x);
    }
  }

  /** Running the loop over two inputs in turn is running it over their
      concatenation. */
  lemma {:induction false} AppendNewAppend<T>(acc: seq<T>, xs: seq<T>, ys: seq<T>)
    ensures AppendNew(AppendNew(acc, xs), ys) == AppendNew(acc, xs + ys)
    decreases |xs|
  {
    if |xs| == 0 {
      assert xs + ys == ys;
    } else {
      assert (xs + ys)[1..] == xs[1..] + ys;
      AppendNewAppend(if xs[0] in acc then acc else acc + [xs[0]], xs[1..], ys);
    }
  }
}
