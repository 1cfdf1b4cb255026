/** Label histograms: the `stats['by_x'][key] = stats['by_x'].get(key, 0) + 1`
    loops of the statistics functions. A histogram is a list of
    (key, count) entries in first-occurrence order, as a Python dict keeps
    its keys in insertion order. */
module Tally {
  import opened Seqs

  type Histogram = seq<(string, nat)>

  /** The labels of a histogram, in order. */
  function Labels(h: Histogram): (r: seq<string>)
    ensures |r| == |h|
    ensures forall i :: 0 <= i < |h| ==> r[i] == h[i].0
  {
    seq(|h|, i requires 0 <= i < |h| => h[i].0)
  }

  /** The count recorded for `key`, 0 when it has no entry. */
  function Count(h: Histogram, key: string): nat {
    if |h| == 0 then 0
    else if h[0].0 == key then h[0].1
    else Count(h[1..], key)
  }

  /** The sum of all counts. */
  function Total(h: Histogram): nat {
    if |h| == 0 then 0 else h[0].1 + Total(h[1..])
  }

  /** `d[key] = d.get(key, 0) + 1`: the entry for `key` is incremented
      in place, or appended with count 1 when there is none. Labels stay
      distinct and no other count changes. */
  function Bump(h: Histogram, key: string): (r: Histogram)
    requires NoDuplicates(Labels(h))
    ensures NoDuplicates(Labels(r))
    ensures Count(r, key) == Count(h, key) + 1
    ensures forall other :: other != key ==> Count(r, other) == Count(h, other)
    ensures Total(r) == Total(h) + 1
    ensures forall x :: x in Labels(r) <==> x in Labels(h) || x == key
    decreases |h|
  {
    if |h| == 0 then [(key, 1)]
    else
      assert Labels(h) == [h[0].0] + Labels(h[1..]);
      if h[0].0 == key then
        assert key !in Labels(h[1..]);
        CountAbsent(h[1..], key);
        var r := [(key, h[0].1 + 1)] + h[1..];
        assert Labels(r) == [key] + Labels(h[1..]);
        r
      else
        var rest := Bump(h[1..], key);
        var r := [h[0]] + rest;
        assert h[0].0 !in Labels(h[1..]);
        assert h[0].0 !in Labels(rest);
        assert Labels(r) == [h[0].0] + Labels(rest);
        r
  }

  /** A key without an entry counts 0. */
  lemma {:induction false} CountAbsent(h: Histogram, key: string)
    requires key !in Labels(h)
    ensures Count(h, key) == 0
  {
    if |h| > 0 {
      assert Labels(h) == [h[0].0] + Labels(h[1..]);
      CountAbsent(h[1..], key);
    }
  }

  /** The histogram of a list of labels, built by bumping each key in
      list order: one entry per distinct key, each counting the key's
      occurrences, all counts adding up to the number of labels. */
  function TallyOf(labels: seq<string>): (h: Histogram)
    ensures NoDuplicates(Labels(h))
    ensures forall x :: Count(h, x) == multiset(labels)[x]
    ensures Total(h) == |labels|
    ensures forall x :: x in Labels(h) <==> x in labels
    decreases |labels|
  {
    if |labels| == 0 then []
    else
      var prefix := labels[..|labels| - 1];
      var last := labels[|labels| - 1];
      assert labels == prefix + [last];
      Bump(TallyOf(prefix), last)
  }
}
