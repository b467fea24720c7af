/** The closing report of the mask shop (0851084_eos_hw3/hw3.cpp, server_sort): each
    store's rows are bubble-sorted in place by their sums. */
module MaskSort {

  /** One row of the data table; only row 0 of a store carries its type and row count. */
  datatype Row = Row(line: int, a: int, b: int, c: int, typeNum: int, sum: int, kind: string, city: string)

  /** What the report prints of a row. */
  datatype Triple = Triple(line: int, city: string, sum: int)

  function Of(row: Row): Triple {
    Triple(row.line, row.city, row.sum)
  }

  function Triples(rows: seq<Row>): (ts: seq<Triple>)
    ensures |ts| == |rows| && forall i | 0 <= i < |rows| :: ts[i] == Of(rows[i])
  {
    seq(|rows|, i requires 0 <= i < |rows| => Of(rows[i]))
  }

  /** The triples to be sorted: every sum taken afresh from the three counts. */
  function Summed(rows: seq<Row>): (ts: seq<Triple>)
    ensures |ts| == |rows|
    ensures forall i | 0 <= i < |rows| :: ts[i] == Triple(rows[i].line, rows[i].city, rows[i].a + rows[i].b + rows[i].c)
  {
    seq(|rows|, i requires 0 <= i < |rows| => Triple(rows[i].line, rows[i].city, rows[i].a + rows[i].b + rows[i].c))
  }

  predicate Descending(ts: seq<Triple>) {
    forall i, j | 0 <= i < j < |ts| :: ts[i].sum >= ts[j].sum
  }

  /** The triples with a given sum, in order. */
  function WithSum(ts: seq<Triple>, v: int): seq<Triple> {
    if ts == [] then []
    else (if ts[0].sum == v then [ts[0]] else []) + WithSum(ts[1..], v)
  }

  /** `after` holds the triples of `before`, and equal sums keep their order. */
  ghost predicate Stable(before: seq<Triple>, after: seq<Triple>) {
    |before| == |after| && forall v :: WithSum(after, v) == WithSum(before, v)
  }

  lemma {:induction false} WithSumConcat(s: seq<Triple>, t: seq<Triple>, v: int)
    ensures WithSum(s + t, v) == WithSum(s, v) + WithSum(t, v)
  {
    if s == [] {
      assert s + t == t;
    } else {
      assert (s + t)[1..] == s[1..] + t;
      WithSumConcat(s[1..], t, v);
    }
  }

  function Swapped(ts: seq<Triple>, j: nat): (r: seq<Triple>)
    requires j + 1 < |ts|
    ensures |r| == |ts|
  {
    ts[j := ts[j + 1]][j + 1 := ts[j]]
  }

  /** Exchanging two neighbours with different sums keeps every sum's triples in order. */
  lemma SwapIsStable(ts: seq<Triple>, j: nat)
    requires j + 1 < |ts| && ts[j].sum != ts[j + 1].sum
    ensures Stable(ts, Swapped(ts, j))
  {
    var x, y := [ts[j]], [ts[j + 1]];
    forall v
      ensures WithSum(Swapped(ts, j), v) == WithSum(ts, v)
    {
      assert ts == ts[..j] + (x + y) + ts[j + 2..];
      assert Swapped(ts, j) == ts[..j] + (y + x) + ts[j + 2..];
      WithSumConcat(ts[..j] + (x + y), ts[j + 2..], v);
      WithSumConcat(ts[..j] + (y + x), ts[j + 2..], v);
      WithSumConcat(ts[..j], x + y, v);
      WithSumConcat(ts[..j], y + x, v);
      WithSumConcat(x, y, v);
      WithSumConcat(y, x, v);
    }
  }

  lemma {:induction false} WithSumCount(ts: seq<Triple>, x: Triple)
    ensures multiset(WithSum(ts, x.sum))[x] == multiset(ts)[x]
  {
    if ts != [] {
      assert ts == [ts[0]] + ts[1..];
      WithSumCount(ts[1..], x);
    }
  }

  /** A stable rearrangement is a permutation. */
  lemma StableIsPermutation(before: seq<Triple>, after: seq<Triple>)
    requires Stable(before, after)
    ensures multiset(before) == multiset(after)
  {
    forall x
      ensures multiset(before)[x] == multiset(after)[x]
    {
      WithSumCount(before, x);
      WithSumCount(after, x);
    }
  }

  lemma {:induction false} WithSumEmpty(ts: seq<Triple>, v: int)
    requires forall i | 0 <= i < |ts| :: ts[i].sum != v
    ensures WithSum(ts, v) == []
  {
    if ts != [] {
      WithSumEmpty(ts[1..], v);
    }
  }

  lemma HeadsAgree(s: seq<Triple>, t: seq<Triple>)
    requires Descending(s) && Descending(t) && Stable(s, t) && s != []
    ensures s[0] == t[0]
  {
    if s[0].sum > t[0].sum {
      WithSumEmpty(t, s[0].sum);
    } else if s[0].sum < t[0].sum {
      WithSumEmpty(s, t[0].sum);
    }
    assert WithSum(s, s[0].sum)[0] == s[0];
    assert WithSum(t, t[0].sum)[0] == t[0];
  }

  /** Descending and stable leave no choice: the report is determined by its input. */
  lemma {:induction false} SortIsDetermined(s: seq<Triple>, t: seq<Triple>)
    requires Descending(s) && Descending(t) && Stable(s, t)
    ensures s == t
  {
    if s != [] {
      HeadsAgree(s, t);
      forall v
        ensures WithSum(s[1..], v) == WithSum(t[1..], v)
      {
        var k := if s[0].sum == v then 1 else 0;
        assert WithSum(s[1..], v) == WithSum(s, v)[k..];
        assert WithSum(t[1..], v) == WithSum(t, v)[k..];
      }
      SortIsDetermined(s[1..], t[1..]);
      assert s == [s[0]] + s[1..] && t == [t[0]] + t[1..];
    }
  }

  // ---------------------------------------------------------------------------------
  // What sorting does to the fields that are not reported
  // ---------------------------------------------------------------------------------

  /** The fields of a row that are not reported. */
  datatype Rest = Rest(a: int, b: int, c: int, typeNum: int, kind: string)

  const BLANK := Rest(0, 0, 0, 0, "")

  function RestOf(row: Row): Rest {
    Rest(row.a, row.b, row.c, row.typeNum, row.kind)
  }

  function Sums(rows: seq<Row>): (sums: seq<int>)
    ensures |sums| == |rows| && forall i | 0 <= i < |rows| :: sums[i] == rows[i].sum
  {
    seq(|rows|, i requires 0 <= i < |rows| => rows[i].sum)
  }

  /** Some row before position `i` has a lower sum than some row from `i` on. */
  ghost predicate Crossed(sums: seq<int>, i: nat) {
    exists k, l | 0 <= k < i <= l < |sums| :: sums[k] < sums[l]
  }

  /** No position is crossed exactly when the sums already fall. */
  lemma NoneCrossedExactlyWhen(sums: seq<int>)
    ensures (forall i: nat :: !Crossed(sums, i)) <==> forall k, l | 0 <= k < l < |sums| :: sums[k] >= sums[l]
  {
    forall k, l | 0 <= k < l < |sums| && sums[k] < sums[l]
      ensures Crossed(sums, l)
    {
    }
  }

  /** The two rows after their exchange: the lower keeps its other fields under the upper
      one's line, city and sum; the upper loses its own. */
  function Exchanged(rows: seq<Row>, j: nat): (r: seq<Row>)
    requires j + 1 < |rows|
    ensures |r| == |rows|
  {
    var x, y := rows[j], rows[j + 1];
    rows[j := x.(line := y.line, city := y.city, sum := y.sum)][j + 1 := Row(x.line, 0, 0, 0, 0, x.sum, "", x.city)]
  }

  /** No exchange at position `i` yet: its other fields are its own, and the rows before it
      and from it on have the sums they began with. */
  ghost predicate KeptAt(before: seq<Row>, now: seq<Row>, i: nat)
    requires i < |before| == |now|
  {
    && RestOf(now[i]) == RestOf(before[i])
    && multiset(Sums(now)[..i]) == multiset(Sums(before)[..i])
    && multiset(Sums(now)[i..]) == multiset(Sums(before)[i..])
  }

  ghost predicate BlankedAt(before: seq<Row>, now: seq<Row>, i: nat)
    requires i < |before| == |now|
  {
    RestOf(now[i]) == BLANK && Crossed(Sums(before), i)
  }

  ghost predicate Tracked(before: seq<Row>, now: seq<Row>) {
    && |now| == |before|
    && forall i | 0 <= i < |before| :: KeptAt(before, now, i) || BlankedAt(before, now, i)
  }

  lemma TrackedStart(rows: seq<Row>)
    ensures Tracked(rows, rows)
  {
  }

  lemma ExchangedSums(rows: seq<Row>, j: nat)
    requires j + 1 < |rows|
    ensures Sums(Exchanged(rows, j)) == SwappedSums(Sums(rows), j)
  {
  }

  function SwappedSums(s: seq<int>, j: nat): (t: seq<int>)
    requires j + 1 < |s|
    ensures |t| == |s|
  {
    s[j := s[j + 1]][j + 1 := s[j]]
  }

  lemma SwapInside(s: seq<int>, j: nat)
    requires j + 1 < |s|
    ensures multiset(SwappedSums(s, j)) == multiset(s)
  {
    assert s == s[..j] + [s[j], s[j + 1]] + s[j + 2..];
    assert SwappedSums(s, j) == s[..j] + [s[j + 1], s[j]] + s[j + 2..];
  }

  /** An exchange on one side of a position does not change what lies on either side. */
  lemma SwapKeepsSides(s: seq<int>, j: nat, i: nat)
    requires j + 1 < |s| && i <= |s| && i != j + 1
    ensures multiset(SwappedSums(s, j)[..i]) == multiset(s[..i])
    ensures multiset(SwappedSums(s, j)[i..]) == multiset(s[i..])
  {
    var t := SwappedSums(s, j);
    if i <= j {
      assert t[..i] == s[..i];
      assert t[i..] == SwappedSums(s[i..], j - i);
      SwapInside(s[i..], j - i);
    } else {
      assert t[i..] == s[i..];
      assert t[..i] == SwappedSums(s[..i], j);
      SwapInside(s[..i], j);
    }
  }

  /** The first exchange at a position shows that it is crossed. */
  lemma ExchangeCrosses(before: seq<Row>, now: seq<Row>, j: nat)
    requires |before| == |now| && j + 1 < |now| && now[j].sum < now[j + 1].sum
    requires KeptAt(before, now, j + 1)
    ensures Crossed(Sums(before), j + 1)
  {
    var s, t := Sums(before), Sums(now);
    assert t[j] == t[..j + 1][j] && t[j + 1] == t[j + 1..][0];
    assert t[j] in multiset(s[..j + 1]) && t[j + 1] in multiset(s[j + 1..]);
    var k :| 0 <= k < j + 1 && s[..j + 1][k] == t[j];
    var l :| 0 <= l < |s| - (j + 1) && s[j + 1..][l] == t[j + 1];
    assert s[k] < s[j + 1 + l];
  }

  lemma TrackedStep(before: seq<Row>, now: seq<Row>, j: nat)
    requires Tracked(before, now) && j + 1 < |now| && now[j].sum < now[j + 1].sum
    ensures Tracked(before, Exchanged(now, j))
  {
    var next := Exchanged(now, j);
    ExchangedSums(now, j);
    if KeptAt(before, now, j + 1) {
      ExchangeCrosses(before, now, j);
    }
    assert RestOf(next[j + 1]) == BLANK && RestOf(next[j]) == RestOf(now[j]);
    assert BlankedAt(before, next, j + 1);
    forall i | 0 <= i < |before|
      ensures KeptAt(before, next, i) || BlankedAt(before, next, i)
    {
      if i != j + 1 {
        SwapKeepsSides(Sums(now), j, i);
        assert RestOf(next[i]) == RestOf(now[i]);
        assert KeptAt(before, now, i) || BlankedAt(before, now, i);
      }
    }
  }

  /** Across a position at which nothing was exchanged, sorted now is sorted before. */
  lemma SortedAcross(before: seq<Row>, now: seq<Row>, i: nat, k: nat, l: nat)
    requires |before| == |now| && k < i <= l < |before| && KeptAt(before, now, i)
    requires forall k, l | 0 <= k < l < |now| :: now[k].sum >= now[l].sum
    ensures Sums(before)[k] >= Sums(before)[l]
  {
    var s, t := Sums(before), Sums(now);
    assert s[k] == s[..i][k] && s[l] == s[i..][l - i];
    assert s[k] in multiset(t[..i]) && s[l] in multiset(t[i..]);
    var k' :| 0 <= k' < i && t[..i][k'] == s[k];
    var l' :| 0 <= l' < |t| - i && t[i..][l'] == s[l];
    assert now[k'].sum >= now[i + l'].sum;
  }

  /** Sorted, exactly the crossed rows have lost their other fields. */
  lemma BlankExactlyWhenCrossed(before: seq<Row>, now: seq<Row>, i: nat)
    requires Tracked(before, now) && i < |before|
    requires forall k, l | 0 <= k < l < |now| :: now[k].sum >= now[l].sum
    ensures RestOf(now[i]) == if Crossed(Sums(before), i) then BLANK else RestOf(before[i])
  {
    assert KeptAt(before, now, i) || BlankedAt(before, now, i);
    if KeptAt(before, now, i) {
      forall k, l | 0 <= k < i <= l < |before|
        ensures Sums(before)[k] >= Sums(before)[l]
      {
        SortedAcross(before, now, i, k, l);
      }
    }
  }

  // ---------------------------------------------------------------------------------
  // The code
  // ---------------------------------------------------------------------------------

  /** The exchange of two neighbours: line, city and sum move down by hand, while the
      upper row is overwritten whole by the temporary, whose other fields are zero. */
  method Exchange(data: array<Row>, j: nat)
    requires j + 1 < data.Length
    modifies data
    ensures data[j] == old(data[j]).(line := old(data[j + 1]).line, city := old(data[j + 1]).city, sum := old(data[j + 1]).sum)
    ensures Of(data[j + 1]) == Of(old(data[j])) && RestOf(data[j + 1]) == BLANK
    ensures forall i | 0 <= i < data.Length && i != j && i != j + 1 :: data[i] == old(data[i])
  {
    var tmp := Row(data[j].line, 0, 0, 0, 0, data[j].sum, "", data[j].city);
    data[j] := data[j].(line := data[j + 1].line, city := data[j + 1].city, sum := data[j + 1].sum);
    data[j + 1] := tmp;
  }

  predicate Splits(ts: seq<Triple>, k: nat) {
    && k <= |ts|
    && Descending(ts[k..])
    && forall i, j | 0 <= i < k <= j < |ts| :: ts[i].sum >= ts[j].sum
  }

  /** No triple before `j` has a lower sum. */
  predicate Least(ts: seq<Triple>, j: nat)
    requires j < |ts|
  {
    forall i | 0 <= i <= j :: ts[i].sum >= ts[j].sum
  }

  /** Two neighbours in order. */
  function Settled(ts: seq<Triple>, j: nat): (r: seq<Triple>)
    requires j + 1 < |ts|
    ensures |r| == |ts|
  {
    if ts[j].sum < ts[j + 1].sum then Swapped(ts, j) else ts
  }

  lemma SettledStep(was: seq<Triple>, ts: seq<Triple>, j: nat, k: nat)
    requires j + 1 < k && Stable(was, ts) && Splits(ts, k) && Least(ts, j)
    ensures Stable(was, Settled(ts, j)) && Splits(Settled(ts, j), k) && Least(Settled(ts, j), j + 1)
  {
    if ts[j].sum < ts[j + 1].sum {
      SwapIsStable(ts, j);
      SwapKeepsSplit(ts, j, k);
      StableTrans(was, ts, Swapped(ts, j));
    }
  }

  lemma SwapKeepsSplit(ts: seq<Triple>, j: nat, k: nat)
    requires Splits(ts, k) && j + 1 < k
    ensures Splits(Swapped(ts, j), k)
  {
  }

  lemma SplitGrows(ts: seq<Triple>, k: nat)
    requires Splits(ts, k + 1) && k < |ts| && Least(ts, k)
    ensures Splits(ts, k)
  {
  }

  /** Compares two neighbours and exchanges them when the lower sum comes first. */
  method Settle(data: array<Row>, n: nat, j: nat)
    requires j + 1 < n <= data.Length
    modifies data
    ensures Triples(data[..n]) == Settled(old(Triples(data[..n])), j)
    ensures data[..n] ==
            if old(data[j].sum < data[j + 1].sum) then Exchanged(old(data[..n]), j) else old(data[..n])
    ensures data[0].typeNum == old(data[0].typeNum) && data[0].kind == old(data[0].kind)
    ensures data[n..] == old(data[n..])
  {
    if data[j].sum < data[j + 1].sum {
      Exchange(data, j);
    }
  }

  /** One pass: the least of the first `toIndex` + 1 sums sinks to its place. */
  method Pass(data: array<Row>, n: nat, toIndex: nat, ghost before: seq<Row>)
    requires 0 < toIndex < n <= data.Length
    requires Splits(Triples(data[..n]), toIndex + 1) && Tracked(before, data[..n])
    modifies data
    ensures Tracked(before, data[..n])
    ensures Splits(Triples(data[..n]), toIndex)
    ensures Stable(old(Triples(data[..n])), Triples(data[..n]))
    ensures data[0].typeNum == old(data[0].typeNum) && data[0].kind == old(data[0].kind)
    ensures data[n..] == old(data[n..])
  {
    ghost var was := Triples(data[..n]);
    ghost var ts := was;
    var j := 0;
    StableRefl(was);
    assert Least(ts, 0);
    hide Stable, Splits, WithSum, Least, Settled, Tracked, Exchanged;
    while j < toIndex
      invariant 0 <= j <= toIndex
      invariant ts == Triples(data[..n])
      invariant Stable(was, ts) && Splits(ts, toIndex + 1) && Least(ts, j)
      invariant Tracked(before, data[..n])
      invariant data[0].typeNum == old(data[0].typeNum) && data[0].kind == old(data[0].kind)
      invariant data[n..] == old(data[n..])
    {
      if data[j].sum < data[j + 1].sum {
        TrackedStep(before, data[..n], j);
      }
      Settle(data, n, j);
      SettledStep(was, ts, j, toIndex + 1);
      ts := Triples(data[..n]);
      j := j + 1;
    }
    SplitGrows(ts, toIndex);
  }

  lemma StableRefl(ts: seq<Triple>)
    ensures Stable(ts, ts)
  {
  }

  lemma StableTrans(r: seq<Triple>, s: seq<Triple>, t: seq<Triple>)
    requires Stable(r, s) && Stable(s, t)
    ensures Stable(r, t)
  {
  }

  /** A store's rows: the first says how many of them are in use. */
  predicate IsTable(rows: seq<Row>) {
    rows != [] && 0 <= rows[0].typeNum <= |rows|
  }

  /** The rows in use with their sums taken afresh. */
  function WithSums(rows: seq<Row>): (r: seq<Row>)
    requires IsTable(rows)
    ensures |r| == |rows| && IsTable(r)
  {
    seq(|rows|, i requires 0 <= i < |rows| =>
      if i < rows[0].typeNum then rows[i].(sum := rows[i].a + rows[i].b + rows[i].c) else rows[i])
  }

  function Totals(rows: seq<Row>): (sums: seq<int>)
    ensures |sums| == |rows| && forall i | 0 <= i < |rows| :: sums[i] == rows[i].a + rows[i].b + rows[i].c
  {
    seq(|rows|, i requires 0 <= i < |rows| => rows[i].a + rows[i].b + rows[i].c)
  }

  /** What sorting does to a store: its triples in order of their sums, equal sums in their
      old order, and the rest of the table, type and count as they were.  The other fields
      stay at their positions, under whatever city comes there, except that they are blanked
      at exactly those positions that some city moves up across. */
  ghost predicate Reported(before: seq<Row>, after: seq<Row>)
    requires IsTable(before)
  {
    var n := before[0].typeNum;
    && |after| == |before|
    && Descending(Triples(after[..n]))
    && Stable(Summed(before[..n]), Triples(after[..n]))
    && after[n..] == before[n..]
    && after[0].typeNum == n && after[0].kind == before[0].kind
    && forall i | 0 <= i < n ::
         RestOf(after[i]) == if Crossed(Totals(before[..n]), i) then BLANK else RestOf(before[i])
  }

  method SumStore(data: array<Row>)
    requires IsTable(data[..])
    modifies data
    ensures data[..] == WithSums(old(data[..]))
  {
    ghost var n := data[0].typeNum;
    var j := 0;
    while j < data[0].typeNum
      invariant 0 <= j <= n && data[0].typeNum == n
      invariant forall i | 0 <= i < j :: data[i] == WithSums(old(data[..]))[i]
      invariant forall i | j <= i < data.Length :: data[i] == old(data[i])
    {
      data[j] := data[j].(sum := data[j].a + data[j].b + data[j].c);
      j := j + 1;
    }
  }

  /** The triples in use are sorted, stably; all else but their other fields is as it was. */
  ghost predicate Bubbled(before: seq<Row>, after: seq<Row>)
    requires IsTable(before)
  {
    var n := before[0].typeNum;
    && |after| == |before|
    && Descending(Triples(after[..n]))
    && Stable(Triples(before[..n]), Triples(after[..n]))
    && Tracked(before[..n], after[..n])
    && after[n..] == before[n..]
    && after[0].typeNum == n && after[0].kind == before[0].kind
  }

  method BubbleStore(data: array<Row>)
    requires IsTable(data[..])
    modifies data
    ensures Bubbled(old(data[..]), data[..])
  {
    var n: nat := data[0].typeNum;
    var toIndex := n;
    ghost var before := data[..n];
    TrackedStart(before);
    hide Tracked;
    while toIndex > 1
      invariant 0 <= toIndex <= n && (n > 0 ==> toIndex > 0)
      invariant Splits(Triples(data[..n]), toIndex)
      invariant Stable(old(Triples(data[..n])), Triples(data[..n]))
      invariant Tracked(before, data[..n])
      invariant data[0].typeNum == old(data[0].typeNum) && data[0].kind == old(data[0].kind)
      invariant data[n..] == old(data[n..])
    {
      toIndex := toIndex - 1;
      Pass(data, n, toIndex, before);
    }
  }

  /** Summing and then sorting is the report. */
  lemma SummedThenSorted(before: seq<Row>, after: seq<Row>)
    requires IsTable(before) && Bubbled(WithSums(before), after)
    ensures Reported(before, after)
  {
    var n := before[0].typeNum;
    assert Triples(WithSums(before)[..n]) == Summed(before[..n]);
    assert WithSums(before)[n..] == before[n..];
    var summed := WithSums(before)[..n];
    assert Sums(summed) == Totals(before[..n]);
    forall i | 0 <= i < n
      ensures RestOf(after[i]) == if Crossed(Totals(before[..n]), i) then BLANK else RestOf(before[i])
    {
      assert forall k | 0 <= k < n :: Triples(after[..n])[k].sum == after[..n][k].sum;
      BlankExactlyWhenCrossed(summed, after[..n], i);
      assert RestOf(summed[i]) == RestOf(before[i]);
    }
  }

  /** Every place keeps its counts exactly when each position that is crossed had none. */
  lemma CountsKeptExactlyWhen(before: seq<Row>, after: seq<Row>)
    requires IsTable(before) && Reported(before, after)
    ensures var n := before[0].typeNum;
            (forall i | 0 <= i < n :: after[i].a == before[i].a && after[i].b == before[i].b && after[i].c == before[i].c)
            <==>
            forall i | 0 <= i < n && Crossed(Totals(before[..n]), i) :: before[i].a == before[i].b == before[i].c == 0
  {
    var n := before[0].typeNum;
    forall i | 0 <= i < n
      ensures (after[i].a == before[i].a && after[i].b == before[i].b && after[i].c == before[i].c)
              <==> (Crossed(Totals(before[..n]), i) ==> before[i].a == before[i].b == before[i].c == 0)
    {
      assert RestOf(after[i]) == if Crossed(Totals(before[..n]), i) then BLANK else RestOf(before[i]);
    }
  }

  /** All stores: first every sum, then every sort. */
  method ServerSort(data: seq<array<Row>>)
    requires forall i, j | 0 <= i < j < |data| :: data[i] != data[j]
    requires forall i | 0 <= i < |data| :: IsTable(data[i][..])
    modifies data
    ensures forall i | 0 <= i < |data| :: Reported(old(data[i][..]), data[i][..])
  {
    hide IsTable, WithSums, Bubbled, Reported;
    var i := 0;
    while i < |data|
      invariant 0 <= i <= |data|
      invariant forall k | 0 <= k < i :: data[k][..] == WithSums(old(data[k][..]))
      invariant forall k | i <= k < |data| :: data[k][..] == old(data[k][..])
    {
      SumStore(data[i]);
      i := i + 1;
    }
    i := 0;
    while i < |data|
      invariant 0 <= i <= |data|
      invariant forall k | 0 <= k < i :: Reported(old(data[k][..]), data[k][..])
      invariant forall k | i <= k < |data| :: data[k][..] == WithSums(old(data[k][..]))
    {
      BubbleStore(data[i]);
      SummedThenSorted(old(data[i][..]), data[i][..]);
      i := i + 1;
    }
  }
}
