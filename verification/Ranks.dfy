/** Tie-averaged ranks: equal values share the mean of the places they occupy. */
module Ranks {

  type Pair = (real, nat)

  // ---- the counting definition

  function Less(s: seq<real>, v: real): nat {
    if s == [] then 0 else Less(s[..|s| - 1], v) + if s[|s| - 1] < v then 1 else 0
  }

  function Equal(s: seq<real>, v: real): nat {
    if s == [] then 0 else Equal(s[..|s| - 1], v) + if s[|s| - 1] == v then 1 else 0
  }

  function RankOf(s: seq<real>, v: real): real {
    Less(s, v) as real + (Equal(s, v) as real + 1.0) / 2.0
  }

  function Sum(s: seq<real>): real {
    if s == [] then 0.0 else Sum(s[..|s| - 1]) + s[|s| - 1]
  }

  // ---- counting is insensitive to order

  lemma {:induction false} CountConcat(a: seq<real>, b: seq<real>, v: real)
    ensures Less(a + b, v) == Less(a, v) + Less(b, v) && Equal(a + b, v) == Equal(a, v) + Equal(b, v)
  {
    if b == [] {
      assert a + b == a;
    } else {
      CountConcat(a, b[..|b| - 1], v);
      assert (a + b)[..|a + b| - 1] == a + b[..|b| - 1];
    }
  }

  lemma CountInsert(a: seq<real>, x: real, b: seq<real>, v: real)
    ensures Less(a + [x] + b, v) == Less(a + b, v) + (if x < v then 1 else 0)
    ensures Equal(a + [x] + b, v) == Equal(a + b, v) + (if x == v then 1 else 0)
  {
    CountConcat(a + [x], b, v);
    CountConcat(a, [x], v);
    CountConcat(a, b, v);
    assert [x][..0] == [];
  }

  lemma {:induction false} CountPermutation(a: seq<real>, b: seq<real>, v: real)
    requires multiset(a) == multiset(b)
    ensures Less(a, v) == Less(b, v) && Equal(a, v) == Equal(b, v)
  {
    if a == [] {
      assert |multiset(b)| == 0;
    } else {
      var init, x := a[..|a| - 1], a[|a| - 1];
      assert a == init + [x];
      assert x in multiset(b);
      var j :| 0 <= j < |b| && b[j] == x;
      var rest := b[..j] + b[j + 1..];
      assert b == b[..j] + [x] + b[j + 1..];
      assert multiset(rest) == multiset(b) - multiset{x};
      CountPermutation(init, rest, v);
      CountInsert(b[..j], x, b[j + 1..], v);
    }
  }

  /** The rank of a value depends on that value and on the multiset of all values, and on nothing else. */
  lemma RankDependsOnMultiset(a: seq<real>, b: seq<real>, v: real)
    requires multiset(a) == multiset(b)
    ensures RankOf(a, v) == RankOf(b, v)
  {
    CountPermutation(a, b, v);
  }

  // ---- the ranks sum to n(n + 1)/2

  function RankSum(s: seq<real>, all: seq<real>): real {
    if s == [] then 0.0 else RankSum(s[..|s| - 1], all) + RankOf(all, s[|s| - 1])
  }

  /** One more value pushes every larger value up by one and every equal value by a half. */
  lemma {:induction false} RankSumGrows(s: seq<real>, all: seq<real>, x: real)
    ensures RankSum(s, all + [x])
            == RankSum(s, all) + |s| as real - Less(s, x) as real - Equal(s, x) as real / 2.0
  {
    if s != [] {
      RankSumGrows(s[..|s| - 1], all, x);
      assert (all + [x])[..|all + [x]| - 1] == all;
    }
  }

  lemma {:induction false} RankSumIsTriangular(s: seq<real>)
    ensures RankSum(s, s) == (|s| * (|s| + 1)) as real / 2.0
  {
    if s != [] {
      var init, x := s[..|s| - 1], s[|s| - 1];
      assert s == init + [x];
      RankSumIsTriangular(init);
      RankSumGrows(init, init, x);
      var n := |init|;
      assert (n + 1) * (n + 2) == n * (n + 1) + 2 * (n + 1);
    }
  }

  lemma {:induction false} SumOfRanks(s: seq<real>, all: seq<real>, out: seq<real>)
    requires |out| == |s| && forall k :: 0 <= k < |s| ==> out[k] == RankOf(all, s[k])
    ensures Sum(out) == RankSum(s, all)
  {
    if s != [] {
      SumOfRanks(s[..|s| - 1], all, out[..|s| - 1]);
    }
  }

  // ---- the sorted pairs

  predicate Before(a: Pair, b: Pair) { a.0 < b.0 || (a.0 == b.0 && a.1 < b.1) }

  function Insert(p: Pair, s: seq<Pair>): seq<Pair> {
    if s == [] || Before(p, s[0]) then [p] + s else [s[0]] + Insert(p, s[1..])
  }

  /** The pairs of value and index, in increasing order. */
  function SortedPairs(values: seq<real>): seq<Pair> {
    if values == [] then [] else Insert((values[|values| - 1], |values| - 1), SortedPairs(values[..|values| - 1]))
  }

  predicate Ordered(s: seq<Pair>) {
    forall i, j :: 0 <= i < j < |s| ==> Before(s[i], s[j])
  }

  function Firsts(s: seq<Pair>): seq<real> { seq(|s|, i requires 0 <= i < |s| => s[i].0) }

  lemma {:induction false} InsertOrders(p: Pair, s: seq<Pair>)
    requires Ordered(s) && forall q :: q in s ==> q.1 != p.1
    ensures Ordered(Insert(p, s)) && |Insert(p, s)| == |s| + 1
    ensures forall q :: q in Insert(p, s) <==> q == p || q in s
  {
    if s != [] && !Before(p, s[0]) {
      assert s[0] in s;
      InsertOrders(p, s[1..]);
      assert forall q :: q in s <==> q == s[0] || q in s[1..];
      var rest := Insert(p, s[1..]);
      forall j | 0 <= j < |rest|
        ensures Before(s[0], rest[j])
      {
        assert rest[j] in rest;
      }
    }
  }

  lemma {:induction false} InsertCounts(p: Pair, s: seq<Pair>)
    ensures multiset(Firsts(Insert(p, s))) == multiset(Firsts(s)) + multiset{p.0}
  {
    if s == [] || Before(p, s[0]) {
      assert Firsts([p] + s) == [p.0] + Firsts(s);
    } else {
      InsertCounts(p, s[1..]);
      assert Firsts([s[0]] + Insert(p, s[1..])) == [s[0].0] + Firsts(Insert(p, s[1..]));
      assert Firsts(s) == [s[0].0] + Firsts(s[1..]);
    }
  }

  lemma {:induction false} SortedPairsAre(values: seq<real>)
    ensures |SortedPairs(values)| == |values| && Ordered(SortedPairs(values))
    ensures forall q :: q in SortedPairs(values) <==> q.1 < |values| && q.0 == values[q.1]
  {
    if values != [] {
      var init, n := values[..|values| - 1], |values| - 1;
      SortedPairsAre(init);
      InsertOrders((values[n], n), SortedPairs(init));
    }
  }

  lemma {:induction false} SortedPairsCount(values: seq<real>)
    ensures multiset(Firsts(SortedPairs(values))) == multiset(values)
  {
    if values != [] {
      var init, n := values[..|values| - 1], |values| - 1;
      SortedPairsCount(init);
      InsertCounts((values[n], n), SortedPairs(init));
      assert values == init + [values[n]];
    }
  }

  /** A run of equal values in an ordered list is preceded by exactly the smaller values. */
  lemma {:induction false} GroupCounts(s: seq<real>, pos: nat, end: nat, v: real)
    requires pos <= end < |s|
    requires forall j :: 0 <= j < pos ==> s[j] < v
    requires forall j :: pos <= j <= end ==> s[j] == v
    requires forall j :: end < j < |s| ==> s[j] > v
    ensures Less(s, v) == pos && Equal(s, v) == end - pos + 1
    decreases |s|
  {
    if |s| - 1 > end {
      GroupCounts(s[..|s| - 1], pos, end, v);
    } else if end > pos {
      GroupCounts(s[..|s| - 1], pos, end - 1, v);
    } else {
      AllSmaller(s[..|s| - 1], v);
    }
  }

  lemma {:induction false} AllSmaller(s: seq<real>, v: real)
    requires forall j :: 0 <= j < |s| ==> s[j] < v
    ensures Less(s, v) == |s| && Equal(s, v) == 0
  {
    if s != [] {
      AllSmaller(s[..|s| - 1], v);
    }
  }

  // ---- the nested loops

  method ComputeRanks(values: seq<real>) returns (out: seq<real>)
    ensures |out| == |values|
    ensures forall k :: 0 <= k < |values| ==> out[k] == RankOf(values, values[k])
    ensures Sum(out) == (|values| * (|values| + 1)) as real / 2.0
  {
    var pairs := SortedPairs(values);
    SortedPairsAre(values);
    SortedPairsCount(values);
    out := seq(|values|, _ => 0.0);
    var pos := 0;
    while pos < |pairs|
      invariant 0 <= pos <= |pairs| && |out| == |values|
      invariant forall j :: 0 <= j < pos ==> out[pairs[j].1] == RankOf(values, pairs[j].0)
      invariant 0 < pos < |pairs| ==> pairs[pos - 1].0 < pairs[pos].0
    {
      var end := pos;
      while end + 1 < |pairs| && pairs[end + 1].0 == pairs[pos].0
        invariant pos <= end < |pairs|
        invariant forall j :: pos <= j <= end ==> pairs[j].0 == pairs[pos].0
      {
        end := end + 1;
      }
      var rank := (pos + end + 2) as real / 2.0;
      RankOfGroup(values, pairs, pos, end);
      out := AssignGroup(values, pairs, out, pos, end, rank);
      pos := end + 1;
      if pos < |pairs| {
        assert Before(pairs[pos - 1], pairs[pos]);
      }
    }
    EveryIndexIsRanked(values, pairs, out);
    SumOfRanks(values, values, out);
    RankSumIsTriangular(values);
  }

  lemma EveryIndexIsRanked(values: seq<real>, pairs: seq<Pair>, out: seq<real>)
    requires |out| == |values| && forall q :: q in pairs <==> q.1 < |values| && q.0 == values[q.1]
    requires forall j :: 0 <= j < |pairs| ==> out[pairs[j].1] == RankOf(values, pairs[j].0)
    ensures forall k :: 0 <= k < |values| ==> out[k] == RankOf(values, values[k])
  {
    forall k | 0 <= k < |values|
      ensures out[k] == RankOf(values, values[k])
    {
      assert (values[k], k) in pairs;
    }
  }

  /** The innermost loop: every index of the group gets the group's rank, and the ranks already written stay. */
  method AssignGroup(values: seq<real>, pairs: seq<Pair>, ranks: seq<real>, pos: nat, end: nat, rank: real)
    returns (out: seq<real>)
    requires |ranks| == |values| && Ordered(pairs) && pos <= end < |pairs|
    requires forall q :: q in pairs ==> q.1 < |values| && q.0 == values[q.1]
    requires forall j :: pos <= j <= end ==> pairs[j].0 == pairs[pos].0
    requires rank == RankOf(values, pairs[pos].0)
    requires forall i :: 0 <= i < pos ==> ranks[pairs[i].1] == RankOf(values, pairs[i].0)
    ensures |out| == |values|
    ensures forall i :: 0 <= i <= end ==> out[pairs[i].1] == RankOf(values, pairs[i].0)
  {
    out := ranks;
    for j := pos to end + 1
      invariant |out| == |values|
      invariant forall i :: 0 <= i < j ==> out[pairs[i].1] == RankOf(values, pairs[i].0)
    {
      assert pairs[j] in pairs;
      forall i | 0 <= i < j ensures pairs[i].1 != pairs[j].1 {
        DistinctIndices(values, pairs, i, j);
      }
      out := out[pairs[j].1 := rank];
    }
  }

  lemma DistinctIndices(values: seq<real>, pairs: seq<Pair>, i: nat, j: nat)
    requires i < j < |pairs| && Ordered(pairs)
    requires forall q :: q in pairs ==> q.1 < |values| && q.0 == values[q.1]
    ensures pairs[i].1 != pairs[j].1
  {}

  lemma RankOfGroup(values: seq<real>, pairs: seq<Pair>, pos: nat, end: nat)
    requires Ordered(pairs) && pos <= end < |pairs| && multiset(Firsts(pairs)) == multiset(values)
    requires forall j :: pos <= j <= end ==> pairs[j].0 == pairs[pos].0
    requires pos > 0 ==> pairs[pos - 1].0 < pairs[pos].0
    requires end + 1 < |pairs| ==> pairs[end + 1].0 != pairs[pos].0
    ensures RankOf(values, pairs[pos].0) == (pos + end + 2) as real / 2.0
  {
    var s, v := Firsts(pairs), pairs[pos].0;
    forall j | 0 <= j < pos ensures s[j] < v {
      assert j == pos - 1 || Before(pairs[j], pairs[pos - 1]);
    }
    forall j | end < j < |s| ensures s[j] > v {
      assert Before(pairs[pos], pairs[end + 1]);
      assert j == end + 1 || Before(pairs[end + 1], pairs[j]);
    }
    GroupCounts(s, pos, end, v);
    CountPermutation(s, values, v);
  }
}
