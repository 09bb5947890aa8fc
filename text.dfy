/**
 * The text handling the table steps rely on: Python's `str.strip()`, the
 * prefix before the first ':' (`str.split(':').str[0]`) and the integer
 * literals `pd.to_numeric` accepts.
 */
module Text {
  import opened Options

  /** Python's `str.isspace()` for one character. */
  predicate IsSpace(c: char)
  {
    var n := c as int;
    (9 <= n <= 13) || (28 <= n <= 32) || n == 0x85 || n == 0xA0 || n == 0x1680
    || (0x2000 <= n <= 0x200A) || n == 0x2028 || n == 0x2029 || n == 0x202F
    || n == 0x205F || n == 0x3000
  }

  /** `s` with its leading whitespace removed. */
  function TrimStart(s: string): (r: string)
    ensures |r| <= |s| && r == s[|s| - |r|..]
    ensures forall i :: 0 <= i < |s| - |r| ==> IsSpace(s[i])
    ensures r == [] || !IsSpace(r[0])
  {
    if s != [] && IsSpace(s[0]) then TrimStart(s[1..]) else s
  }

  /** `s` with its trailing whitespace removed. */
  function TrimEnd(s: string): (r: string)
    ensures |r| <= |s| && r == s[..|r|]
    ensures forall i :: |r| <= i < |s| ==> IsSpace(s[i])
    ensures r == [] || !IsSpace(r[|r| - 1])
  {
    if s != [] && IsSpace(s[|s| - 1]) then TrimEnd(s[..|s| - 1]) else s
  }

  /** Every character of `s` is whitespace. */
  predicate AllSpace(s: string)
  {
    forall k :: 0 <= k < |s| ==> IsSpace(s[k])
  }

  /** Every character of `s` before `i` and from `j` on is whitespace. */
  ghost predicate SpaceOutside(s: string, i: int, j: int)
  {
    && 0 <= i <= j <= |s|
    && (forall k :: 0 <= k < i ==> IsSpace(s[k]))
    && (forall k :: j <= k < |s| ==> IsSpace(s[k]))
  }

  /** `r` is a slice of `s` with only whitespace outside it. */
  ghost predicate TrimOf(r: string, s: string)
  {
    exists i, j :: SpaceOutside(s, i, j) && r == s[i..j]
  }

  /**
   * Trimming a leading run and then a trailing run of whitespace leaves a
   * slice with whitespace outside it, which is blank exactly when `s` is
   * all whitespace and otherwise starts and ends with other characters.
   */
  lemma TrimmedSlice(s: string, front: string, r: string)
    requires |front| <= |s| && front == s[|s| - |front|..]
    requires forall k :: 0 <= k < |s| - |front| ==> IsSpace(s[k])
    requires front == [] || !IsSpace(front[0])
    requires |r| <= |front| && r == front[..|r|]
    requires forall k :: |r| <= k < |front| ==> IsSpace(front[k])
    requires r == [] || !IsSpace(r[|r| - 1])
    ensures TrimOf(r, s)
    ensures r == [] || (!IsSpace(r[0]) && !IsSpace(r[|r| - 1]))
    ensures r == [] <==> AllSpace(s)
  {
    var i := |s| - |front|;
    forall k | i + |r| <= k < |s| ensures IsSpace(s[k]) {
      assert s[k] == front[k - i];
    }
    assert SpaceOutside(s, i, i + |r|) && r == s[i..i + |r|];
    assert r != [] ==> r[0] == front[0];
    assert r == [] ==> AllSpace(s) by {
      if r == [] {
        assert front == [];
      }
    }
    assert AllSpace(s) ==> front == [] by {
      if front != [] {
        assert front[0] == s[|s| - |front|];
      }
    }
  }

  /**
   * Python's `str.strip()`: the slice of `s` left once its leading and
   * trailing whitespace is removed; blank exactly when every character is
   * whitespace.
   */
  function Strip(s: string): (r: string)
    ensures |r| <= |s|
    ensures TrimOf(r, s)
    ensures r == [] || (!IsSpace(r[0]) && !IsSpace(r[|r| - 1]))
    ensures r == [] <==> AllSpace(s)
  {
    var front := TrimStart(s);
    var t := TrimEnd(front);
    TrimmedSlice(s, front, t);
    t
  }

  predicate IsDigit(c: char)
  {
    '0' <= c <= '9'
  }

  predicate AllDigits(s: string)
  {
    forall i :: 0 <= i < |s| ==> IsDigit(s[i])
  }

  /** The value of a decimal digit string, most significant digit first. */
  function DigitsValue(s: string): (n: nat)
    requires AllDigits(s)
  {
    if s == [] then 0
    else DigitsValue(s[..|s| - 1]) * 10 + ((s[|s| - 1] as int) - ('0' as int))
  }

  /** An integer literal: an optional sign followed by at least one decimal digit. */
  predicate IsIntLiteral(s: string)
  {
    || (|s| > 0 && AllDigits(s))
    || (|s| > 1 && (s[0] == '-' || s[0] == '+') && AllDigits(s[1..]))
  }

  /**
   * `pd.to_numeric(s, errors='coerce')` for integer text: the literal's value,
   * or absent (NaN) when `s` is not an integer literal.
   */
  function ParseInt(s: string): (r: Option<int>)
    ensures r.Some? <==> IsIntLiteral(s)
    ensures |s| > 0 && AllDigits(s) ==> r == Some(DigitsValue(s))
    ensures |s| > 1 && s[0] == '-' && AllDigits(s[1..]) ==> r == Some(-(DigitsValue(s[1..]) as int))
    ensures |s| > 1 && s[0] == '+' && AllDigits(s[1..]) ==> r == Some(DigitsValue(s[1..]))
  {
    if |s| > 0 && AllDigits(s) then Some(DigitsValue(s))
    else if |s| > 1 && s[0] == '-' && AllDigits(s[1..]) then Some(-(DigitsValue(s[1..]) as int))
    else if |s| > 1 && s[0] == '+' && AllDigits(s[1..]) then Some(DigitsValue(s[1..]))
    else None
  }

  /** Decimal digits of `n`, as `str(n)` writes a non-negative integer. */
  function ShowNat(n: nat): (s: string)
    ensures |s| > 0 && AllDigits(s)
  {
    var d := [(('0' as int) + n % 10) as char];
    if n < 10 then d else ShowNat(n / 10) + d
  }

  /** `str(n)` for an integer. */
  function Show(n: int): (s: string)
    ensures ':' !in s
  {
    if n < 0 then "-" + ShowNat(-n) else ShowNat(n)
  }

  lemma {:induction false} ShowNatValue(n: nat)
    ensures DigitsValue(ShowNat(n)) == n
  {
    var s := ShowNat(n);
    if n >= 10 {
      ShowNatValue(n / 10);
      assert s[..|s| - 1] == ShowNat(n / 10);
    }
  }

  /** Parsing undoes rendering: `to_numeric(str(n)) == n`. */
  lemma ParseShow(n: int)
    ensures ParseInt(Show(n)) == Some(n)
  {
    if n < 0 {
      ShowNatValue(-n);
      assert Show(n)[1..] == ShowNat(-n);
    } else {
      ShowNatValue(n);
    }
  }

  /** The text before the first ':' (all of `s` when it has none). */
  function BeforeColon(s: string): (r: string)
    ensures |r| <= |s| && r == s[..|r|]
    ensures ':' !in r
    ensures |r| < |s| ==> s[|r|] == ':'
  {
    if s == [] || s[0] == ':' then [] else [s[0]] + BeforeColon(s[1..])
  }

  /** `pd.to_numeric(str(hour).split(':')[0], errors='coerce')`. */
  function HourNum(s: string): (r: Option<int>)
    ensures r.Some? <==> IsIntLiteral(BeforeColon(s))
  {
    ParseInt(BeforeColon(s))
  }

  /** The prefix before ':' of a colon-free text followed by ':' is that text. */
  lemma {:induction false} BeforeColonOf(x: string, rest: string)
    requires ':' !in x
    ensures BeforeColon(x + ":" + rest) == x
    ensures BeforeColon(x) == x
  {
    if x != [] {
      assert (x + ":" + rest)[1..] == x[1..] + ":" + rest;
      assert x[0] in x;
      BeforeColonOf(x[1..], rest);
    }
  }

  /** A clock reading "h:mm..." and a bare "h" both give hour h. */
  lemma HourNumOfClock(h: int, rest: string)
    ensures HourNum(Show(h) + ":" + rest) == Some(h)
    ensures HourNum(Show(h)) == Some(h)
  {
    BeforeColonOf(Show(h), rest);
    ParseShow(h);
  }
}
