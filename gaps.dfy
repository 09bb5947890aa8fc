/**
 * Missing-hour detection and the left merge of the filtered table against
 * every hour from the first to the last one registered.
 */
module Gaps {
  import opened Options
  import opened Seqs
  import opened Text
  import opened Rows

  /** The number read from an "Hora" cell. */
  function HourOf(c: HourCell): Option<int>
  {
    match c
    case Label(t) => HourNum(t)
    case At(h) => Some(h)
    case Blank => None
  }

  function AddHourNum(r: Row): Row
  {
    r.(hourNum := HourOf(r.hour))
  }

  /** The table with its "Hora_Num" column computed from "Hora". */
  function WithHourNum(rows: seq<Row>): (r: seq<Row>)
    ensures |r| == |rows|
    ensures forall i :: 0 <= i < |rows| ==> r[i] == rows[i].(hourNum := HourOf(rows[i].hour))
  {
    MapSeq(rows, AddHourNum)
  }

  /** The set of hours a table holds. */
  ghost function HoursIn(t: seq<Row>): set<int>
  {
    set x | x in t && x.hourNum.Some? :: x.hourNum.value
  }

  /** `Hora_Num.dropna()`: the parsed hours in row order; it holds exactly the hours of the table. */
  function ValidHours(rows: seq<Row>): (hs: seq<int>)
    ensures forall h :: h in hs <==> h in HoursIn(rows)
  {
    if rows == [] then []
    else
      var first := match rows[0].hourNum case Some(h) => [h] case None => [];
      assert forall x :: x in rows <==> x == rows[0] || x in rows[1..];
      first + ValidHours(rows[1..])
  }

  function MinOf(s: seq<int>): (m: int)
    requires s != []
    ensures m in s && forall x :: x in s ==> m <= x
  {
    if |s| == 1 then s[0]
    else
      var rest := MinOf(s[1..]);
      assert forall x :: x in s ==> x == s[0] || x in s[1..];
      if s[0] <= rest then s[0] else rest
  }

  function MaxOf(s: seq<int>): (m: int)
    requires s != []
    ensures m in s && forall x :: x in s ==> x <= m
  {
    if |s| == 1 then s[0]
    else
      var rest := MaxOf(s[1..]);
      assert forall x :: x in s ==> x == s[0] || x in s[1..];
      if s[0] >= rest then s[0] else rest
  }

  /** `range(lo, hi + 1)`: the expected hours, ascending, each once. */
  function HoursBetween(lo: int, hi: int): (r: seq<int>)
    ensures StrictlyAscending(r)
    ensures forall h :: h in r <==> lo <= h <= hi
    decreases hi - lo
  {
    if lo > hi then []
    else
      var rest := HoursBetween(lo + 1, hi);
      var r := [lo] + rest;
      assert forall x :: x in r <==> x == lo || x in rest;
      assert StrictlyAscending(r) by {
        forall i, j | 0 <= i < j < |r| ensures r[i] < r[j] {
          assert r[j] == rest[j - 1] && rest[j - 1] in rest;
          if i > 0 {
            assert r[i] == rest[i - 1];
          }
        }
      }
      r
  }

  function NotIn(registered: seq<int>): int -> bool
  {
    h => h !in registered
  }

  /**
   * `horas_faltantes`: the hours between `lo` and `hi` that no row holds,
   * ascending; empty exactly when the registered hours cover the range.
   */
  function MissingHours(lo: int, hi: int, registered: seq<int>): (m: seq<int>)
    ensures forall h :: h in m <==> lo <= h <= hi && h !in registered
    ensures StrictlyAscending(m)
    ensures m == [] <==> forall h :: lo <= h <= hi ==> h in registered
  {
    var m := Keep(HoursBetween(lo, hi), NotIn(registered));
    KeepAscending(HoursBetween(lo, hi), NotIn(registered));
    assert m != [] ==> m[0] in m;
    m
  }

  function HourIs(h: int): Row -> bool
  {
    (r: Row) => r.hourNum == Some(h)
  }

  /** The rows of a table at hour `h`, in table order. */
  function AtHour(t: seq<Row>, h: int): (r: seq<Row>)
    ensures forall x :: x in r <==> x in t && x.hourNum == Some(h)
  {
    Keep(t, HourIs(h))
  }

  /** The row the left merge produces for an expected hour that matches no row: only "Hora_Num" is set. */
  function Gap(h: int): Row
  {
    Row(Blank, None, None, None, None, None, None, None, None, Some(h))
  }

  /** What the merge yields for one expected hour: its matching rows, or one gap row. */
  function Block(h: int, t: seq<Row>): (b: seq<Row>)
    ensures |b| > 0
    ensures forall x :: x in b ==> x.hourNum == Some(h)
  {
    var m := AtHour(t, h);
    if m == [] then [Gap(h)] else m
  }

  /** `pd.merge(pd.DataFrame({"Hora_Num": hours}), t, on="Hora_Num", how="left")`. */
  function Merge(hours: seq<int>, t: seq<Row>): (r: seq<Row>)
    ensures forall x :: x in r ==> x.hourNum.Some? && x.hourNum.value in hours
  {
    if hours == [] then []
    else
      var b, rest := Block(hours[0], t), Merge(hours[1..], t);
      assert forall x :: x in b + rest <==> x in b || x in rest;
      b + rest
  }

  /**
   * Lines 115 and 118 for one row: "Hora" takes the value of "Hora_Num",
   * and a missing target takes `fill`, which is absent when every line is
   * shown (line 118 then does not run).
   */
  function Settle(fill: Option<int>): Row -> Row
  {
    (r: Row) =>
      r.(hour := if r.hourNum.Some? then At(r.hourNum.value) else Blank,
         target := if r.target.None? then fill else r.target)
  }

  /**
   * Settling a row sets "Hora" from a parsed "Hora_Num", fills a missing
   * target and never overwrites one, and changes no other column.
   */
  lemma SettleRow(fill: Option<int>, x: Row)
    ensures var y := Settle(fill)(x);
      && y == x.(hour := y.hour, target := y.target)
      && (x.hourNum.Some? ==> y.hour == At(x.hourNum.value))
      && (x.target.Some? ==> y.target == x.target)
      && (x.target.None? ==> y.target == fill)
  {
  }

  /** The placeholder row the reconciled table holds for a missing hour. */
  function Placeholder(h: int, fill: Option<int>): Row
  {
    Row(At(h), None, None, None, None, None, None, None, fill, Some(h))
  }

  datatype Reconciliation = Reconciliation(table: seq<Row>, missing: seq<int>)

  /**
   * Lines 93-118: parse the hours; if none parses, the table is returned
   * with the new column and no missing hours; otherwise it is merged against
   * every hour from the smallest to the largest.
   */
  function Reconcile(rows: seq<Row>, fill: Option<int>): (r: Reconciliation)
    ensures StrictlyAscending(r.missing)
    ensures ValidHours(WithHourNum(rows)) == [] ==> r == Reconciliation(WithHourNum(rows), [])
  {
    var df := WithHourNum(rows);
    var valid := ValidHours(df);
    if valid == [] then Reconciliation(df, [])
    else
      var lo, hi := MinOf(valid), MaxOf(valid);
      Reconciliation(MapSeq(Merge(HoursBetween(lo, hi), df), Settle(fill)), MissingHours(lo, hi, valid))
  }

  // ---------------------------------------------------------------- merge

  /** Over distinct expected hours, the merge holds at each expected hour exactly that hour's block, and nothing at any other hour. */
  lemma {:induction false} MergeAtHour(hours: seq<int>, t: seq<Row>, h: int)
    requires StrictlyAscending(hours)
    ensures AtHour(Merge(hours, t), h) == if h in hours then Block(h, t) else []
  {
    if hours != [] {
      var e, rest := hours[0], hours[1..];
      assert hours == [e] + rest;
      assert StrictlyAscending(rest);
      assert e !in rest by {
        forall x | x in rest ensures e < x {
          var k :| 0 <= k < |rest| && rest[k] == x;
          assert hours[k + 1] == x;
        }
      }
      var b, m := Block(e, t), Merge(rest, t);
      assert Merge(hours, t) == b + m;
      KeepAppend(b, m, HourIs(h));
      MergeAtHour(rest, t, h);
      if h == e {
        KeepAll(b, HourIs(h));
      } else {
        KeepNone(b, HourIs(h));
      }
    }
  }

  /** Hours of a table never decrease from one row to the next. */
  ghost predicate HoursAscending(t: seq<Row>)
  {
    forall i, j :: 0 <= i <= j < |t| ==>
      t[i].hourNum.Some? && t[j].hourNum.Some? && t[i].hourNum.value <= t[j].hourNum.value
  }

  /** Over ascending expected hours, the merged hours never decrease. */
  lemma {:induction false} MergeAscending(hours: seq<int>, t: seq<Row>)
    requires StrictlyAscending(hours)
    ensures HoursAscending(Merge(hours, t))
  {
    if hours != [] {
      var e, rest := hours[0], hours[1..];
      assert StrictlyAscending(rest);
      MergeAscending(rest, t);
      var b, m := Block(e, t), Merge(rest, t);
      assert Merge(hours, t) == b + m;
      forall x | x in m ensures x.hourNum.Some? && e < x.hourNum.value {
        var k :| 0 <= k < |rest| && rest[k] == x.hourNum.value;
        assert hours[k + 1] == rest[k];
      }
      var r := b + m;
      forall i, j | 0 <= i <= j < |r|
        ensures r[i].hourNum.Some? && r[j].hourNum.Some? && r[i].hourNum.value <= r[j].hourNum.value
      {
        if j < |b| {
          assert r[i] == b[i] && r[j] == b[j] && b[i] in b && b[j] in b;
        } else if i < |b| {
          assert r[i] == b[i] && b[i] in b;
          assert r[j] == m[j - |b|] && m[j - |b|] in m;
        } else {
          assert r[i] == m[i - |b|] && r[j] == m[j - |b|];
        }
      }
    }
  }

  function HourIn(hours: seq<int>): Row -> bool
  {
    (r: Row) => r.hourNum.Some? && r.hourNum.value in hours
  }

  function Unmatched(t: seq<Row>): int -> bool
  {
    h => AtHour(t, h) == []
  }

  /** Over distinct expected hours, the merge holds every row at an expected hour plus one row per unmatched hour. */
  lemma {:induction false} MergeCount(hours: seq<int>, t: seq<Row>)
    requires StrictlyAscending(hours)
    ensures |Merge(hours, t)| == |Keep(t, HourIn(hours))| + |Keep(hours, Unmatched(t))|
  {
    if hours == [] {
      KeepNone(t, HourIn(hours));
    } else {
      var e, rest := hours[0], hours[1..];
      assert StrictlyAscending(rest);
      assert e !in rest;
      MergeCount(rest, t);
      assert forall x :: x in hours <==> x == e || x in rest;
      KeepSplitCount(t, HourIn(hours), HourIs(e), HourIn(rest));
    }
  }

  // ---------------------------------------------------------- reconcile

  function Timed(): Row -> bool
  {
    (r: Row) => r.hourNum.Some?
  }

  lemma SettleKeepsHour(fill: Option<int>, h: int, s: seq<Row>)
    ensures forall x :: x in s ==> HourIs(h)(Settle(fill)(x)) == HourIs(h)(x)
  {
  }

  /**
   * Per hour, the reconciled table holds: for a registered hour, the rows
   * parsed to that hour in input order, each once; for a missing hour, one
   * placeholder with no shift, output or lost minutes and the fill target;
   * outside the range, nothing.
   */
  lemma ReconcileAtHour(rows: seq<Row>, fill: Option<int>, h: int)
    requires ValidHours(WithHourNum(rows)) != []
    ensures
      var df := WithHourNum(rows);
      var valid := ValidHours(df);
      AtHour(Reconcile(rows, fill).table, h) ==
        if MinOf(valid) <= h <= MaxOf(valid) then
          (if AtHour(df, h) == [] then [Placeholder(h, fill)] else MapSeq(AtHour(df, h), Settle(fill)))
        else []
  {
    var df := WithHourNum(rows);
    var valid := ValidHours(df);
    var hours := HoursBetween(MinOf(valid), MaxOf(valid));
    var merged := Merge(hours, df);
    SettleKeepsHour(fill, h, merged);
    KeepMapSeq(merged, Settle(fill), HourIs(h), HourIs(h));
    MergeAtHour(hours, df, h);
  }

  /** The reconciled table holds exactly the hours from the first to the last registered one. */
  lemma ReconcileCovers(rows: seq<Row>, fill: Option<int>)
    requires ValidHours(WithHourNum(rows)) != []
    ensures
      var valid := ValidHours(WithHourNum(rows));
      forall h :: h in HoursIn(Reconcile(rows, fill).table) <==> MinOf(valid) <= h <= MaxOf(valid)
  {
    var df := WithHourNum(rows);
    var valid := ValidHours(df);
    var lo, hi := MinOf(valid), MaxOf(valid);
    var t := Reconcile(rows, fill).table;
    forall h | lo <= h <= hi ensures h in HoursIn(t) {
      ReconcileAtHour(rows, fill, h);
      var a := AtHour(t, h);
      assert a[0] in a;
    }
    forall h | h in HoursIn(t) ensures lo <= h <= hi {
      var x :| x in t && x.hourNum == Some(h);
      var a := AtHour(t, h);
      assert x in a;
      ReconcileAtHour(rows, fill, h);
    }
  }

  /** Reconciled hours never decrease, and every row's "Hora" is its "Hora_Num". */
  lemma ReconcileAscending(rows: seq<Row>, fill: Option<int>)
    requires ValidHours(WithHourNum(rows)) != []
    ensures var t := Reconcile(rows, fill).table;
      && HoursAscending(t)
      && forall i :: 0 <= i < |t| ==> t[i].hourNum.Some? && t[i].hour == At(t[i].hourNum.value)
  {
    var df := WithHourNum(rows);
    var valid := ValidHours(df);
    var hours := HoursBetween(MinOf(valid), MaxOf(valid));
    var merged := Merge(hours, df);
    MergeAscending(hours, df);
    var t := Reconcile(rows, fill).table;
    assert t == MapSeq(merged, Settle(fill));
    forall i | 0 <= i < |t| ensures t[i].hourNum == merged[i].hourNum && merged[i].hourNum.Some? {
      assert merged[i] in merged;
    }
  }

  /** Every row whose hour parses lies in the expected range. */
  lemma TimedInRange(rows: seq<Row>)
    requires ValidHours(WithHourNum(rows)) != []
    ensures var df := WithHourNum(rows);
      var valid := ValidHours(df);
      Keep(df, HourIn(HoursBetween(MinOf(valid), MaxOf(valid)))) == Keep(df, Timed())
  {
    var df := WithHourNum(rows);
    var valid := ValidHours(df);
    var hours := HoursBetween(MinOf(valid), MaxOf(valid));
    forall x | x in df ensures HourIn(hours)(x) == Timed()(x) {
      if x.hourNum.Some? {
        assert x.hourNum.value in HoursIn(df);
      }
    }
    KeepAgree(df, HourIn(hours), Timed());
  }

  /**
   * The reconciled table holds every row whose hour parses plus one
   * placeholder per missing hour; rows whose hour does not parse are dropped.
   */
  lemma ReconcileCount(rows: seq<Row>, fill: Option<int>)
    requires ValidHours(WithHourNum(rows)) != []
    ensures var r := Reconcile(rows, fill);
      |r.table| == |Keep(WithHourNum(rows), Timed())| + |r.missing|
  {
    var df := WithHourNum(rows);
    var valid := ValidHours(df);
    var lo, hi := MinOf(valid), MaxOf(valid);
    var hours := HoursBetween(lo, hi);
    MergeCount(hours, df);
    TimedInRange(rows);
    forall h | h in hours ensures Unmatched(df)(h) == NotIn(valid)(h) {
      var a := AtHour(df, h);
      if a != [] {
        assert a[0] in a;
      }
      if h in valid {
        assert h in HoursIn(df);
        var x :| x in df && x.hourNum == Some(h);
        assert x in a;
      }
    }
    KeepAgree(hours, Unmatched(df), NotIn(valid));
  }

  /** With no parseable hour the table is returned as it is (with its "Hora_Num" column) and nothing is reported missing. */
  lemma ReconcileWithoutHours(rows: seq<Row>, fill: Option<int>)
    requires ValidHours(WithHourNum(rows)) == []
    ensures Reconcile(rows, fill) == Reconciliation(WithHourNum(rows), [])
    ensures forall i :: 0 <= i < |rows| ==> HourOf(rows[i].hour).None?
  {
    var df := WithHourNum(rows);
    forall i | 0 <= i < |rows| ensures HourOf(rows[i].hour).None? {
      var x := df[i];
      assert x in df;
      assert forall v :: x.hourNum == Some(v) ==> v in HoursIn(df);
    }
  }

  /** Dropping the first row of a table sorted by hour leaves it sorted. */
  lemma AscendingTail(t: seq<Row>)
    requires t != [] && HoursAscending(t)
    ensures HoursAscending(t[1..])
  {
    var tail := t[1..];
    forall i, j | 0 <= i <= j < |tail|
      ensures tail[i].hourNum.Some? && tail[j].hourNum.Some? && tail[i].hourNum.value <= tail[j].hourNum.value
    {
      assert tail[i] == t[i + 1] && tail[j] == t[j + 1];
    }
  }

  /**
   * In a table sorted by hour, the rows at `e` and the rows at later hours
   * come out of a mask for both as two consecutive runs.
   */
  lemma {:induction false} KeepHourRuns(t: seq<Row>, e: int, rest: seq<int>)
    requires HoursAscending(t)
    requires forall h :: h in rest ==> e < h
    ensures Keep(t, HourIn([e] + rest)) == Keep(t, HourIs(e)) + Keep(t, HourIn(rest))
  {
    if t != [] {
      var x, tail := t[0], t[1..];
      var both, here, later := HourIn([e] + rest), HourIs(e), HourIn(rest);
      AscendingTail(t);
      KeepHourRuns(tail, e, rest);
      assert Keep(t, both) == (if both(x) then [x] + Keep(tail, both) else Keep(tail, both));
      assert Keep(t, here) == (if here(x) then [x] + Keep(tail, here) else Keep(tail, here));
      assert Keep(t, later) == (if later(x) then [x] + Keep(tail, later) else Keep(tail, later));
      if later(x) {
        assert !here(x);
        forall y | y in tail ensures !here(y) {
          var k :| 0 <= k < |tail| && tail[k] == y;
          assert t[k + 1] == y;
        }
        KeepNone(tail, here);
      }
    }
  }

  /**
   * Over ascending expected hours that each match some row, the merge of a
   * table sorted by hour is the table's rows at those hours, in table order.
   */
  lemma {:induction false} MergeSorted(hours: seq<int>, t: seq<Row>)
    requires StrictlyAscending(hours)
    requires HoursAscending(t)
    requires forall h :: h in hours ==> AtHour(t, h) != []
    ensures Merge(hours, t) == Keep(t, HourIn(hours))
  {
    if hours == [] {
      KeepNone(t, HourIn(hours));
    } else {
      var e, rest := hours[0], hours[1..];
      assert hours == [e] + rest;
      assert StrictlyAscending(rest);
      assert forall h :: h in rest ==> e < h by {
        forall h | h in rest ensures e < h {
          var k :| 0 <= k < |rest| && rest[k] == h;
          assert hours[k + 1] == h;
        }
      }
      assert e in hours;
      MergeSorted(rest, t);
      KeepHourRuns(t, e, rest);
    }
  }

  /** Every expected hour that is registered matches some row. */
  lemma RegisteredMatched(df: seq<Row>, hours: seq<int>)
    requires forall h :: h in hours ==> h in ValidHours(df)
    ensures forall h :: h in hours ==> AtHour(df, h) != []
  {
    forall h | h in hours ensures AtHour(df, h) != [] {
      assert h in HoursIn(df);
      var x :| x in df && x.hourNum == Some(h);
      assert x in AtHour(df, h);
    }
  }

  /** In a table sorted by hour every hour parses, so a non-empty one registers some hour. */
  lemma SortedTimed(df: seq<Row>)
    requires HoursAscending(df)
    ensures Keep(df, Timed()) == df
    ensures df != [] ==> ValidHours(df) != []
  {
    forall x | x in df ensures Timed()(x) {
      var k :| 0 <= k < |df| && df[k] == x;
    }
    KeepAll(df, Timed());
    if df != [] {
      assert df[0] in df;
      assert df[0].hourNum.value in HoursIn(df);
    }
  }

  /**
   * Reconciliation is idempotent: a table already sorted by hour, whose
   * hours all parse and leave no gap, comes back as it is, with "Hora" set
   * from "Hora_Num" and the fill applied, and no hour is reported missing.
   */
  lemma ReconcileIdempotent(rows: seq<Row>, fill: Option<int>)
    requires HoursAscending(WithHourNum(rows))
    requires var valid := ValidHours(WithHourNum(rows));
      valid != [] ==> forall h :: MinOf(valid) <= h <= MaxOf(valid) ==> h in valid
    ensures Reconcile(rows, fill) == Reconciliation(MapSeq(WithHourNum(rows), Settle(fill)), [])
  {
    var df := WithHourNum(rows);
    var valid := ValidHours(df);
    SortedTimed(df);
    if valid != [] {
      var hours := HoursBetween(MinOf(valid), MaxOf(valid));
      RegisteredMatched(df, hours);
      MergeSorted(hours, df);
      TimedInRange(rows);
      assert Merge(hours, df) == df;
    }
  }

  /** Settling a row twice is settling it once. */
  lemma SettleTwice(fill: Option<int>, x: Row)
    ensures Settle(fill)(Settle(fill)(x)) == Settle(fill)(x)
  {
  }

  /** Rows whose "Hora" already holds their parsed hour gain nothing from a new "Hora_Num" column. */
  lemma HourNumSettled(t: seq<Row>)
    requires forall i :: 0 <= i < |t| ==> t[i].hourNum.Some? && t[i].hour == At(t[i].hourNum.value)
    ensures WithHourNum(t) == t
  {
    forall i | 0 <= i < |t| ensures WithHourNum(t)[i] == t[i] {
    }
  }

  /**
   * A settled table sorted by hour whose hours are exactly `lo..hi` is left
   * as it is by the reconciliation.
   */
  lemma ReconcileSettled(t: seq<Row>, fill: Option<int>, lo: int, hi: int)
    requires lo <= hi
    requires HoursAscending(t)
    requires WithHourNum(t) == t
    requires forall h :: h in HoursIn(t) <==> lo <= h <= hi
    requires MapSeq(t, Settle(fill)) == t
    ensures Reconcile(t, fill) == Reconciliation(t, [])
  {
    var valid := ValidHours(t);
    assert lo in HoursIn(t);
    assert MinOf(valid) in HoursIn(t) && MaxOf(valid) in HoursIn(t);
    ReconcileIdempotent(t, fill);
  }

  /**
   * Running the reconciliation on its own table changes nothing and reports
   * no missing hour.
   */
  lemma ReconcileTwice(rows: seq<Row>, fill: Option<int>)
    requires ValidHours(WithHourNum(rows)) != []
    ensures var t := Reconcile(rows, fill).table;
      Reconcile(t, fill) == Reconciliation(t, [])
  {
    var df := WithHourNum(rows);
    var valid := ValidHours(df);
    var lo, hi := MinOf(valid), MaxOf(valid);
    var merged := Merge(HoursBetween(lo, hi), df);
    var t := Reconcile(rows, fill).table;
    assert t == MapSeq(merged, Settle(fill));
    ReconcileAscending(rows, fill);
    ReconcileCovers(rows, fill);
    HourNumSettled(t);
    assert MapSeq(t, Settle(fill)) == t by {
      forall i | 0 <= i < |t| ensures MapSeq(t, Settle(fill))[i] == t[i] {
        SettleTwice(fill, merged[i]);
      }
    }
    ReconcileSettled(t, fill, lo, hi);
  }

  // ------------------------------------------------------------ example

  /** With registered hours 6, 7 and 9, the range is 6 to 9 and the only missing hour is 8. */
  lemma MissingExample(valid: seq<int>)
    requires forall h :: h in valid <==> h == 6 || h == 7 || h == 9
    ensures valid != [] && MinOf(valid) == 6 && MaxOf(valid) == 9
    ensures MissingHours(6, 9, valid) == [8]
  {
    assert 6 in valid && 9 in valid;
    var m := MissingHours(6, 9, valid);
    AscendingUnique(m, 8);
  }

  /** Three rows whose hours parse to 6, 7 and 9 all count as registered, and none is at hour 8. */
  lemma ParsedExample(a: Row, b: Row, c: Row)
    requires HourOf(a.hour) == Some(6) && HourOf(b.hour) == Some(7) && HourOf(c.hour) == Some(9)
    ensures forall h :: h in ValidHours(WithHourNum([a, b, c])) <==> h == 6 || h == 7 || h == 9
    ensures Keep(WithHourNum([a, b, c]), Timed()) == WithHourNum([a, b, c])
    ensures AtHour(WithHourNum([a, b, c]), 8) == []
  {
    var df := WithHourNum([a, b, c]);
    assert df[0].hourNum == Some(6) && df[1].hourNum == Some(7) && df[2].hourNum == Some(9);
    assert df[0] in df && df[1] in df && df[2] in df;
    forall h | h in HoursIn(df) ensures h == 6 || h == 7 || h == 9 {
      var x :| x in df && x.hourNum == Some(h);
      var i :| 0 <= i < 3 && df[i] == x;
    }
    forall x | x in df ensures x.hourNum.Some? && x.hourNum != Some(8) {
      var i :| 0 <= i < 3 && df[i] == x;
    }
    KeepAll(df, Timed());
    KeepNone(df, HourIs(8));
  }

  /** Three rows whose "Hora" reads "6:00", "7:00" and "9:00" all parse, and none is at hour 8. */
  lemma HoursOfExample(a: Row, b: Row, c: Row)
    requires a.hour == Label("6:00") && b.hour == Label("7:00") && c.hour == Label("9:00")
    ensures forall h :: h in ValidHours(WithHourNum([a, b, c])) <==> h == 6 || h == 7 || h == 9
    ensures Keep(WithHourNum([a, b, c]), Timed()) == WithHourNum([a, b, c])
    ensures AtHour(WithHourNum([a, b, c]), 8) == []
  {
    assert "6:00" == Show(6) + ":" + "00" && "7:00" == Show(7) + ":" + "00" && "9:00" == Show(9) + ":" + "00";
    HourNumOfClock(6, "00");
    HourNumOfClock(7, "00");
    HourNumOfClock(9, "00");
    ParsedExample(a, b, c);
  }

  /**
   * Any three rows whose hours parse to 6, 7 and 9, none at hour 8: hour 8 is
   * reported missing, the table has four rows, and at hour 8 it holds one
   * placeholder carrying `fill`.
   */
  lemma ReconcileOfHours(rows: seq<Row>, fill: Option<int>)
    requires |rows| == 3
    requires forall h :: h in ValidHours(WithHourNum(rows)) <==> h == 6 || h == 7 || h == 9
    requires Keep(WithHourNum(rows), Timed()) == WithHourNum(rows)
    requires AtHour(WithHourNum(rows), 8) == []
    ensures var r := Reconcile(rows, fill);
      && r.missing == [8]
      && |r.table| == 4
      && AtHour(r.table, 8) == [Placeholder(8, fill)]
  {
    MissingExample(ValidHours(WithHourNum(rows)));
    ReconcileCount(rows, fill);
    ReconcileAtHour(rows, fill, 8);
  }

  /**
   * Three rows logged at "6:00", "7:00" and "9:00" on a line whose target is
   * 800: hour 8 is reported missing, the table has four rows, and at hour 8
   * it holds one placeholder carrying the line's target.
   */
  lemma ReconcileExample(a: Row, b: Row, c: Row)
    requires a.hour == Label("6:00") && b.hour == Label("7:00") && c.hour == Label("9:00")
    ensures var r := Reconcile([a, b, c], Some(800));
      && r.missing == [8]
      && |r.table| == 4
      && AtHour(r.table, 8) == [Placeholder(8, Some(800))]
  {
    HoursOfExample(a, b, c);
    ReconcileOfHours([a, b, c], Some(800));
  }
}
