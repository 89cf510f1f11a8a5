/** Generic facts about the two list-building patterns the programs use: keeping
    the elements that pass a test (a `for` loop with `continue` guards around an
    `append`), and appending one block of lines per element. */
module Seqs {

  /** The elements of `s` for which `keep` holds, in their original order. */
  function Filter<T>(s: seq<T>, keep: T -> bool): seq<T>
    decreases |s|
  {
    if |s| == 0 then []
    else Filter(s[..|s| - 1], keep) + (if keep(s[|s| - 1]) then [s[|s| - 1]] else [])
  }

  /** The positions of the kept elements, in increasing order. */
  ghost function KeptIndices<T>(s: seq<T>, keep: T -> bool): seq<nat>
    decreases |s|
  {
    if |s| == 0 then []
    else
      var n := |s| - 1;
      KeptIndices(s[..n], keep) + (if keep(s[n]) then [n] else [])
  }

  /** The kept positions are in range, strictly increasing, and exactly the
      positions whose element passes. */
  lemma {:induction false} KeptIndicesExact<T>(s: seq<T>, keep: T -> bool)
    ensures var idx := KeptIndices(s, keep);
      && (forall j | 0 <= j < |idx| :: idx[j] < |s| && keep(s[idx[j]]))
      && (forall j1, j2 | 0 <= j1 < j2 < |idx| :: idx[j1] < idx[j2])
      && (forall i | 0 <= i < |s| :: keep(s[i]) <==> i in idx)
    decreases |s|
  {
    if |s| > 0 {
      var n := |s| - 1;
      KeptIndicesExact(s[..n], keep);
      var front := KeptIndices(s[..n], keep);
      var idx := KeptIndices(s, keep);
      assert idx == front + (if keep(s[n]) then [n] else []);
      forall j | 0 <= j < |front| ensures idx[j] == front[j] && front[j] < n && keep(s[front[j]]) {
        assert s[..n][front[j]] == s[front[j]];
      }
      forall i | 0 <= i < n ensures keep(s[i]) <==> i in idx {
        assert s[..n][i] == s[i];
        assert i in front <==> i in idx;
      }
    }
  }

  /** The filter is the subsequence of `s` at the kept positions. */
  lemma {:induction false} FilterAtKeptIndices<T>(s: seq<T>, keep: T -> bool)
    ensures |Filter(s, keep)| == |KeptIndices(s, keep)|
    ensures forall j | 0 <= j < |Filter(s, keep)| ::
              KeptIndices(s, keep)[j] < |s| && Filter(s, keep)[j] == s[KeptIndices(s, keep)[j]]
    decreases |s|
  {
    if |s| > 0 {
      var n := |s| - 1;
      FilterAtKeptIndices(s[..n], keep);
      var idx := KeptIndices(s[..n], keep);
      var f := Filter(s[..n], keep);
      assert Filter(s, keep) == f + (if keep(s[n]) then [s[n]] else []);
      assert KeptIndices(s, keep) == idx + (if keep(s[n]) then [n] else []);
      forall j | 0 <= j < |f|
        ensures KeptIndices(s, keep)[j] < |s| && Filter(s, keep)[j] == s[KeptIndices(s, keep)[j]]
      {
        assert Filter(s, keep)[j] == f[j];
        assert KeptIndices(s, keep)[j] == idx[j];
        assert s[..n][idx[j]] == s[idx[j]];
      }
    }
  }

  /** A strictly increasing sequence of naturals below `n` has at most `n` entries. */
  lemma {:induction false} IncreasingBelowIsShort(idx: seq<nat>, n: nat)
    requires forall j | 0 <= j < |idx| :: idx[j] < n
    requires forall j1, j2 | 0 <= j1 < j2 < |idx| :: idx[j1] < idx[j2]
    ensures |idx| <= n
    decreases n
  {
    if |idx| > 0 {
      var front := idx[..|idx| - 1];
      assert forall j | 0 <= j < |front| :: front[j] < idx[|idx| - 1];
      IncreasingBelowIsShort(front, idx[|idx| - 1]);
    }
  }

  /** Every element that passes is kept, nothing else is, and the filter is no
      longer than its input. */
  lemma FilterMembers<T>(s: seq<T>, keep: T -> bool)
    ensures |Filter(s, keep)| <= |s|
    ensures forall x :: x in Filter(s, keep) <==> x in s && keep(x)
  {
    var f, idx := Filter(s, keep), KeptIndices(s, keep);
    FilterAtKeptIndices(s, keep);
    KeptIndicesExact(s, keep);
    IncreasingBelowIsShort(idx, |s|);
    forall x ensures x in f <==> x in s && keep(x) {
      if x in f {
        var j :| 0 <= j < |f| && f[j] == x;
        assert s[idx[j]] == x;
      }
      if x in s && keep(x) {
        var i :| 0 <= i < |s| && s[i] == x;
        var j :| 0 <= j < |idx| && idx[j] == i;
        assert f[j] == x;
      }
    }
  }

  /** Two tests that agree on every element of `s` keep the same elements. */
  lemma {:induction false} FilterAgrees<T>(s: seq<T>, keep1: T -> bool, keep2: T -> bool)
    requires forall k | 0 <= k < |s| :: keep1(s[k]) == keep2(s[k])
    ensures Filter(s, keep1) == Filter(s, keep2)
    decreases |s|
  {
    if |s| > 0 {
      var n := |s| - 1;
      assert forall k | 0 <= k < n :: s[..n][k] == s[k];
      FilterAgrees(s[..n], keep1, keep2);
    }
  }

  /** The blocks of `bs` appended one after another. */
  function Concat<T>(bs: seq<seq<T>>): seq<T>
    decreases |bs|
  {
    if |bs| == 0 then [] else Concat(bs[..|bs| - 1]) + bs[|bs| - 1]
  }

  /** Block `i` sits at the offset given by the length of the blocks before it. */
  lemma {:induction false} ConcatBlockAt<T>(bs: seq<seq<T>>, i: nat)
    requires i < |bs|
    ensures |Concat(bs[..i])| + |bs[i]| <= |Concat(bs)|
    ensures Concat(bs)[|Concat(bs[..i])| .. |Concat(bs[..i])| + |bs[i]|] == bs[i]
    decreases |bs|
  {
    var n := |bs| - 1;
    var front := bs[..n];
    if i < n {
      ConcatBlockAt(front, i);
      assert front[..i] == bs[..i];
      assert front[i] == bs[i];
      var lo := |Concat(bs[..i])|;
      assert Concat(bs)[lo .. lo + |bs[i]|] == Concat(front)[lo .. lo + |bs[i]|];
    } else {
      assert bs[..i] == front;
    }
  }

  /** A slice of the middle part of `h + c + t` is the same slice of `c`, shifted. */
  lemma SliceOfMiddle<T>(h: seq<T>, c: seq<T>, t: seq<T>, lo: nat, hi: nat)
    requires lo <= hi <= |c|
    ensures (h + c + t)[|h| + lo .. |h| + hi] == c[lo..hi]
  {
    assert forall k | lo <= k < hi :: (h + c + t)[|h| + k] == c[k];
  }
}
