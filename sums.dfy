/** Running sums, totals and the efficiency figure over the reconciled table. */
module Sums {
  import opened Options
  import opened Seqs
  import opened Rows
  import opened Gaps

  /** `Series.sum()`: absent cells are skipped, i.e. read as 0. */
  function SumInts(xs: seq<Option<int>>): int
  {
    if xs == [] then 0 else SumInts(xs[..|xs| - 1]) + xs[|xs| - 1].GetOr(0)
  }

  /** `Series.sum()` over a real-valued column. */
  function SumReals(xs: seq<Option<real>>): real
  {
    if xs == [] then 0.0 else SumReals(xs[..|xs| - 1]) + xs[|xs| - 1].GetOr(0.0)
  }

  /** Every present value is non-negative. */
  predicate NonNegative(xs: seq<Option<int>>)
  {
    forall i :: 0 <= i < |xs| ==> xs[i].GetOr(0) >= 0
  }

  /** The sum of a concatenation is the sum of the parts. */
  lemma {:induction false} SumAppend(a: seq<Option<int>>, b: seq<Option<int>>)
    ensures SumInts(a + b) == SumInts(a) + SumInts(b)
  {
    if b == [] {
      assert a + b == a;
    } else {
      assert (a + b)[..|a + b| - 1] == a + b[..|b| - 1];
      assert (a + b)[|a + b| - 1] == b[|b| - 1];
      SumAppend(a, b[..|b| - 1]);
    }
  }

  /** With non-negative values, a longer prefix never sums to less. */
  lemma {:induction false} SumPrefixMonotone(xs: seq<Option<int>>, i: nat, j: nat)
    requires NonNegative(xs)
    requires i <= j <= |xs|
    ensures SumInts(xs[..i]) <= SumInts(xs[..j])
    decreases j - i
  {
    if i < j {
      SumPrefixMonotone(xs, i, j - 1);
      assert xs[..j][..j - 1] == xs[..j - 1];
    }
  }

  /**
   * `column.fillna(0).cumsum()`: position i holds the sum of positions 0..i;
   * the last position holds the column's total, and with non-negative values
   * the sums never decrease.
   */
  method RunningSum(col: seq<Option<int>>) returns (acc: seq<int>)
    ensures |acc| == |col|
    ensures forall i :: 0 <= i < |col| ==> acc[i] == SumInts(col[..i + 1])
    ensures |col| > 0 ==> acc[|col| - 1] == SumInts(col)
    ensures NonNegative(col) ==> forall i, j :: 0 <= i <= j < |acc| ==> acc[i] <= acc[j]
  {
    acc := [];
    var total := 0;
    var i := 0;
    while i < |col|
      invariant 0 <= i <= |col|
      invariant |acc| == i
      invariant total == SumInts(col[..i])
      invariant forall k :: 0 <= k < i ==> acc[k] == SumInts(col[..k + 1])
    {
      assert col[..i + 1][..i] == col[..i];
      total := total + col[i].GetOr(0);
      acc := acc + [total];
      i := i + 1;
    }
    assert col[..|col|] == col;
    if NonNegative(col) {
      forall i, j | 0 <= i <= j < |acc| ensures acc[i] <= acc[j] {
        SumPrefixMonotone(col, i + 1, j + 1);
      }
    }
  }

  function Actuals(t: seq<Row>): (xs: seq<Option<int>>)
    ensures |xs| == |t| && forall i :: 0 <= i < |t| ==> xs[i] == t[i].actual
  {
    seq(|t|, i requires 0 <= i < |t| => t[i].actual)
  }

  function Targets(t: seq<Row>): (xs: seq<Option<int>>)
    ensures |xs| == |t| && forall i :: 0 <= i < |t| ==> xs[i] == t[i].target
  {
    seq(|t|, i requires 0 <= i < |t| => t[i].target)
  }

  function Losts(t: seq<Row>): (xs: seq<Option<real>>)
    ensures |xs| == |t| && forall i :: 0 <= i < |t| ==> xs[i] == t[i].lost
  {
    seq(|t|, i requires 0 <= i < |t| => t[i].lost)
  }

  /**
   * Output as a percentage of target: `total / target * 100` when the target
   * is positive and 0 otherwise, so there is no division by zero.
   */
  function Efficiency(total: int, target: int): (e: real)
    ensures target <= 0 ==> e == 0.0
    ensures target > 0 ==> e * (target as real) == (total as real) * 100.0
    ensures target > 0 ==> (e >= 100.0 <==> total >= target)
    ensures target > 0 ==> (e == 100.0 <==> total == target)
    ensures total >= 0 ==> e >= 0.0
  {
    if target > 0 then
      var e := (total as real) / (target as real) * 100.0;
      EfficiencyScale(total as real, target as real, e);
      e
    else 0.0
  }

  /** `e = a / t * 100` with `t > 0` scales back to `a * 100` and compares with 100 as `a` compares with `t`. */
  lemma EfficiencyScale(a: real, t: real, e: real)
    requires t > 0.0 && e == a / t * 100.0
    ensures e * t == a * 100.0
    ensures e >= 100.0 <==> a >= t
    ensures e == 100.0 <==> a == t
    ensures a >= 0.0 ==> e >= 0.0
  {
    var q := a / t;
    assert q * t == a;
    assert e * t == (q * t) * 100.0;
    assert (e - 100.0) * t == (a - t) * 100.0;
    ProductSign(e - 100.0, t);
    ProductSign(e, t);
  }

  /** Multiplying by a positive number keeps the sign. */
  lemma ProductSign(x: real, t: real)
    requires t > 0.0
    ensures x >= 0.0 <==> x * t >= 0.0
    ensures x == 0.0 <==> x * t == 0.0
  {
  }

  datatype Totals = Totals(actual: int, target: int, lost: real, efficiency: real)

  /** The four summary figures of the table. */
  function Summarize(t: seq<Row>): (s: Totals)
    ensures s.actual == SumInts(Actuals(t)) && s.target == SumInts(Targets(t)) && s.lost == SumReals(Losts(t))
    ensures s.target <= 0 ==> s.efficiency == 0.0
    ensures s.target > 0 ==> s.efficiency * (s.target as real) == (s.actual as real) * 100.0
  {
    var actual, target := SumInts(Actuals(t)), SumInts(Targets(t));
    Totals(actual, target, SumReals(Losts(t)), Efficiency(actual, target))
  }

  // ------------------------------------------------- output conservation

  lemma ActualsAppend(a: seq<Row>, b: seq<Row>)
    ensures Actuals(a + b) == Actuals(a) + Actuals(b)
  {
    assert |Actuals(a + b)| == |Actuals(a) + Actuals(b)|;
    forall i | 0 <= i < |a + b| ensures Actuals(a + b)[i] == (Actuals(a) + Actuals(b))[i] {
      if i < |a| {
        assert (a + b)[i] == a[i];
      } else {
        assert (a + b)[i] == b[i - |a|];
      }
    }
  }

  /** Masks that split the rows in two split the kept rows' output likewise. */
  lemma {:induction false} KeepSplitOutput(s: seq<Row>, both: Row -> bool, p: Row -> bool, q: Row -> bool)
    requires forall x :: x in s ==> (both(x) <==> p(x) || q(x))
    requires forall x :: x in s ==> !(p(x) && q(x))
    ensures SumInts(Actuals(Keep(s, both))) == SumInts(Actuals(Keep(s, p))) + SumInts(Actuals(Keep(s, q)))
  {
    if s != [] {
      var x, rest := s[0], s[1..];
      assert x in s;
      assert forall y :: y in rest ==> y in s;
      KeepSplitOutput(rest, both, p, q);
      var head := [x];
      var v := SumInts(Actuals(head));
      assert SumInts(Actuals([])) == 0;
      forall m: Row -> bool | m == both || m == p || m == q
        ensures SumInts(Actuals(Keep(s, m))) == (if m(x) then v else 0) + SumInts(Actuals(Keep(rest, m)))
      {
        var k := if m(x) then head else [];
        assert Keep(s, m) == k + Keep(rest, m);
        ActualsAppend(k, Keep(rest, m));
        SumAppend(Actuals(k), Actuals(Keep(rest, m)));
      }
    }
  }

  /** Over distinct expected hours, the merge carries exactly the output of the rows at those hours: gap rows add none. */
  lemma {:induction false} MergeOutput(hours: seq<int>, t: seq<Row>)
    requires StrictlyAscending(hours)
    ensures SumInts(Actuals(Merge(hours, t))) == SumInts(Actuals(Keep(t, HourIn(hours))))
  {
    if hours == [] {
      KeepNone(t, HourIn(hours));
    } else {
      var e, rest := hours[0], hours[1..];
      assert StrictlyAscending(rest);
      assert e !in rest;
      MergeOutput(rest, t);
      var b, m := Block(e, t), Merge(rest, t);
      assert Merge(hours, t) == b + m;
      ActualsAppend(b, m);
      SumAppend(Actuals(b), Actuals(m));
      assert SumInts(Actuals(b)) == SumInts(Actuals(AtHour(t, e))) by {
        if AtHour(t, e) == [] {
          assert Actuals(b) == [None];
        }
      }
      assert forall x :: x in hours <==> x == e || x in rest;
      KeepSplitOutput(t, HourIn(hours), HourIs(e), HourIn(rest));
    }
  }

  lemma SettleKeepsActuals(t: seq<Row>, fill: Option<int>)
    ensures Actuals(MapSeq(t, Settle(fill))) == Actuals(t)
  {
  }

  /**
   * Reconciliation neither creates nor loses output: the reconciled table's
   * total output is that of the rows whose hour parses.
   */
  lemma ReconcileKeepsOutput(rows: seq<Row>, fill: Option<int>)
    requires ValidHours(WithHourNum(rows)) != []
    ensures SumInts(Actuals(Reconcile(rows, fill).table)) == SumInts(Actuals(Keep(WithHourNum(rows), Timed())))
  {
    var df := WithHourNum(rows);
    var valid := ValidHours(df);
    var hours := HoursBetween(MinOf(valid), MaxOf(valid));
    var merged := Merge(hours, df);
    SettleKeepsActuals(merged, fill);
    MergeOutput(hours, df);
    TimedInRange(rows);
  }
}
