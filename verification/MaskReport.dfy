/** What the closing sort of the mask shop (0851084_eos_hw3/hw3.cpp, server_sort) does to a
    store's rows as wholes: when every city keeps its own stock. */
module MaskReport {
  import opened MaskSort

  /** A city's row: its line, its name and its three counts. */
  datatype Stock = Stock(line: int, city: string, a: int, b: int, c: int)

  function StockOf(row: Row): Stock {
    Stock(row.line, row.city, row.a, row.b, row.c)
  }

  function Stocks(rows: seq<Row>): (s: seq<Stock>)
    ensures |s| == |rows| && forall i | 0 <= i < |rows| :: s[i] == StockOf(rows[i])
  {
    seq(|rows|, i requires 0 <= i < |rows| => StockOf(rows[i]))
  }

  predicate Falls(sums: seq<int>) {
    forall k, l | 0 <= k < l < |sums| :: sums[k] >= sums[l]
  }

  function Masks(s: Stock): int {
    s.a + s.b + s.c
  }

  /** All masks of a store. */
  function AllMasks(s: seq<Stock>): int {
    if s == [] then 0 else AllMasks(s[..|s| - 1]) + Masks(s[|s| - 1])
  }

  lemma {:induction false} AllMasksWithout(s: seq<Stock>, j: nat)
    requires j < |s|
    ensures AllMasks(s) == AllMasks(s[..j] + s[j + 1..]) + Masks(s[j])
  {
    var n := |s| - 1;
    if j == n {
      assert s[..j] + s[j + 1..] == s[..n];
    } else {
      AllMasksWithout(s[..n], j);
      var rest := s[..j] + s[j + 1..];
      assert rest[..|rest| - 1] == s[..n][..j] + s[..n][j + 1..] && rest[|rest| - 1] == s[n];
    }
  }

  /** Rearranging the rows keeps the masks. */
  lemma {:induction false} RearrangedHoldAsMany(s: seq<Stock>, t: seq<Stock>)
    requires multiset(s) == multiset(t)
    ensures AllMasks(s) == AllMasks(t)
  {
    if s == [] {
      assert |multiset(t)| == 0 && |t| == 0;
    } else {
      var n := |s| - 1;
      var x := s[n];
      assert s == s[..n] + [x];
      assert x in multiset(t);
      var j :| 0 <= j < |t| && t[j] == x;
      assert t == t[..j] + [x] + t[j + 1..];
      var rest := t[..j] + t[j + 1..];
      assert multiset(s[..n]) == multiset(s) - multiset{x} == multiset(t) - multiset{x} == multiset(rest);
      RearrangedHoldAsMany(s[..n], rest);
      AllMasksWithout(t, j);
    }
  }

  /** Fewer masks in one row and no more in any other are fewer masks in all. */
  lemma {:induction false} FewerMasks(s: seq<Stock>, t: seq<Stock>, l: nat)
    requires |s| == |t| && forall i | 0 <= i < |s| :: Masks(t[i]) <= Masks(s[i])
    ensures AllMasks(t) <= AllMasks(s)
    ensures l < |s| && Masks(t[l]) < Masks(s[l]) ==> AllMasks(t) < AllMasks(s)
  {
    if s != [] {
      FewerMasks(s[..|s| - 1], t[..|t| - 1], l);
    }
  }

  ghost predicate NoDebts(rows: seq<Row>) {
    forall i | 0 <= i < |rows| :: rows[i].a >= 0 && rows[i].b >= 0 && rows[i].c >= 0
  }

  /** Where the sums already fall, nothing moves. */
  lemma StaysWhenFalling(before: seq<Row>, after: seq<Row>)
    requires IsTable(before) && Reported(before, after)
    requires Falls(Totals(before[..before[0].typeNum]))
    ensures var n := before[0].typeNum; Stocks(after[..n]) == Stocks(before[..n])
  {
    var n := before[0].typeNum;
    NoneCrossedExactlyWhen(Totals(before[..n]));
    assert Descending(Summed(before[..n]));
    SortIsDetermined(Summed(before[..n]), Triples(after[..n]));
    hide Reported, Crossed;
    forall i | 0 <= i < n
      ensures Stocks(after[..n])[i] == Stocks(before[..n])[i]
    {
      assert Triples(after[..n])[i] == Summed(before[..n])[i];
      RestStays(before, after, i);
    }
  }

  lemma RestStays(before: seq<Row>, after: seq<Row>, i: nat)
    requires IsTable(before) && Reported(before, after) && i < before[0].typeNum
    ensures if Crossed(Totals(before[..before[0].typeNum]), i) then RestOf(after[i]) == BLANK
            else RestOf(after[i]) == RestOf(before[i])
  {
    hide Crossed, Descending, Stable;
  }

  /** Sums that do not fall have a row, with masks, that moves up. */
  lemma SomeRowMoves(sums: seq<int>) returns (l: nat)
    requires !Falls(sums) && forall i | 0 <= i < |sums| :: sums[i] >= 0
    ensures l < |sums| && Crossed(sums, l) && sums[l] > 0
  {
    var k, m :| 0 <= k < m < |sums| && sums[k] < sums[m];
    l := m;
  }

  /** A place has no more masks after the sort, and none where some row moved up across it. */
  lemma PlaceKeepsOrLoses(before: seq<Row>, after: seq<Row>, i: nat)
    requires IsTable(before) && Reported(before, after) && i < before[0].typeNum
    requires NoDebts(before[..before[0].typeNum])
    ensures var n := before[0].typeNum;
            && Masks(StockOf(before[i])) == Totals(before[..n])[i] >= 0
            && Masks(StockOf(after[i])) == if Crossed(Totals(before[..n]), i) then 0 else Totals(before[..n])[i]
  {
    hide Crossed, Reported;
    RestStays(before, after, i);
    assert before[..before[0].typeNum][i] == before[i];
  }

  lemma SameLength(before: seq<Row>, after: seq<Row>)
    requires IsTable(before) && Reported(before, after)
    ensures |after| == |before|
  {
  }

  /** Where they do not, masks are lost. */
  lemma LosesWhenNotFalling(before: seq<Row>, after: seq<Row>)
    requires IsTable(before) && Reported(before, after)
    requires NoDebts(before[..before[0].typeNum]) && !Falls(Totals(before[..before[0].typeNum]))
    ensures |after| == |before|
    ensures var n := before[0].typeNum; AllMasks(Stocks(after[..n])) < AllMasks(Stocks(before[..n]))
  {
    hide Reported, Crossed, NoDebts, Falls, AllMasks, Masks;
    SameLength(before, after);
    var n := before[0].typeNum;
    var s, t := Stocks(before[..n]), Stocks(after[..n]);
    forall i | 0 <= i < n
      ensures Totals(before[..n])[i] == Masks(s[i]) >= 0
      ensures Masks(t[i]) == if Crossed(Totals(before[..n]), i) then 0 else Masks(s[i])
    {
      PlaceKeepsOrLoses(before, after, i);
      assert s[i] == StockOf(before[i]) && t[i] == StockOf(after[i]);
    }
    var l := SomeRowMoves(Totals(before[..n]));
    FewerMasks(s, t, l);
  }

  /** The rows in use are rearranged as wholes, every city keeping its own counts, exactly when
      the sums already fall and nothing is to be sorted. */
  lemma RowsKeptExactlyWhen(before: seq<Row>, after: seq<Row>)
    requires IsTable(before) && Reported(before, after) && NoDebts(before[..before[0].typeNum])
    ensures |after| == |before|
    ensures var n := before[0].typeNum;
            multiset(Stocks(after[..n])) == multiset(Stocks(before[..n])) <==> Falls(Totals(before[..n]))
  {
    hide Reported, Falls, NoDebts, AllMasks;
    SameLength(before, after);
    var n := before[0].typeNum;
    if Falls(Totals(before[..n])) {
      StaysWhenFalling(before, after);
    } else {
      LosesWhenNotFalling(before, after);
      if multiset(Stocks(after[..n])) == multiset(Stocks(before[..n])) {
        RearrangedHoldAsMany(Stocks(after[..n]), Stocks(before[..n]));
      }
    }
  }

  /** Two rows with rising sums change places, and the second keeps nothing of its counts. */
  lemma TwoRows(x: Row, y: Row, after: seq<Row>)
    requires x.typeNum == 2 && x.a + x.b + x.c < y.a + y.b + y.c && Reported([x, y], after)
    ensures Stocks(after) == [Stock(y.line, y.city, x.a, x.b, x.c), Stock(x.line, x.city, 0, 0, 0)]
  {
    var rows, sums := [x, y], Totals([x, y]);
    SameLength(rows, after);
    assert rows[..2] == rows && after[..2] == after;
    SwapIsStable(Summed(rows), 0);
    SortIsDetermined(Swapped(Summed(rows), 0), Triples(after));
    assert Triples(after)[0] == Summed(rows)[1] && Triples(after)[1] == Summed(rows)[0];
    assert sums[0] < sums[1] && Crossed(sums, 1) && !Crossed(sums, 0);
    RestStays(rows, after, 0);
    RestStays(rows, after, 1);
  }

  /** A city with one mask before a city with two: the report gives the second city the first
      one's mask, and the first city none. */
  method TwoCities() returns (data: array<Row>)
    ensures Stocks(data[..]) == [Stock(2, "Taipei", 1, 0, 0), Stock(1, "Hsinchu", 0, 0, 0)]
  {
    hide Reported;
    data := new Row[2];
    data[0] := Row(1, 1, 0, 0, 2, 0, "A", "Hsinchu");
    data[1] := Row(2, 2, 0, 0, 0, 0, "", "Taipei");
    ghost var x, y := data[0], data[1];
    var stores := [data];
    assert stores[0][..] == [x, y];
    ServerSort(stores);
    assert Reported([x, y], stores[0][..]);
    TwoRows(x, y, data[..]);
  }
}
