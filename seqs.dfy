/**
 * Generic sequence operations used by the table steps: `Keep` is a boolean
 * row mask (`df[mask]`, `dropna(subset=...)`), `MapSeq` a whole-column
 * assignment.
 */
module Seqs {

  /** The elements of `s` satisfying `p`, in their original order. */
  function Keep<T(!new)>(s: seq<T>, p: T -> bool): (r: seq<T>)
    ensures |r| <= |s|
    ensures forall x :: x in r <==> x in s && p(x)
  {
    if s == [] then []
    else if p(s[0]) then [s[0]] + Keep(s[1..], p)
    else Keep(s[1..], p)
  }

  /** `f` applied to every element, position by position. */
  function MapSeq<T, U>(s: seq<T>, f: T -> U): (r: seq<U>)
    ensures |r| == |s|
    ensures forall i :: 0 <= i < |s| ==> r[i] == f(s[i])
  {
    if s == [] then [] else [f(s[0])] + MapSeq(s[1..], f)
  }

  /** Keeping distributes over concatenation: the relative order of the kept elements is the input order. */
  lemma {:induction false} KeepAppend<T(!new)>(a: seq<T>, b: seq<T>, p: T -> bool)
    ensures Keep(a + b, p) == Keep(a, p) + Keep(b, p)
  {
    if a == [] {
      assert a + b == b;
    } else {
      assert (a + b)[0] == a[0];
      assert (a + b)[1..] == a[1..] + b;
      KeepAppend(a[1..], b, p);
    }
  }

  /** A mask that holds everywhere keeps the sequence as it is. */
  lemma {:induction false} KeepAll<T(!new)>(s: seq<T>, p: T -> bool)
    requires forall x :: x in s ==> p(x)
    ensures Keep(s, p) == s
  {
    if s != [] {
      assert s[0] in s;
      assert forall x :: x in s[1..] ==> x in s;
      KeepAll(s[1..], p);
    }
  }

  /** A mask that holds nowhere keeps nothing. */
  lemma {:induction false} KeepNone<T(!new)>(s: seq<T>, p: T -> bool)
    requires forall x :: x in s ==> !p(x)
    ensures Keep(s, p) == []
  {
    if s != [] {
      assert s[0] in s;
      assert forall x :: x in s[1..] ==> x in s;
      KeepNone(s[1..], p);
    }
  }

  /** Two masks that agree on every element keep the same elements. */
  lemma {:induction false} KeepAgree<T(!new)>(s: seq<T>, p: T -> bool, q: T -> bool)
    requires forall x :: x in s ==> p(x) == q(x)
    ensures Keep(s, p) == Keep(s, q)
  {
    if s != [] {
      assert s[0] in s;
      assert forall x :: x in s[1..] ==> x in s;
      KeepAgree(s[1..], p, q);
    }
  }

  /** Masks that split the elements of `s` in two split the kept count likewise. */
  lemma {:induction false} KeepSplitCount<T(!new)>(s: seq<T>, both: T -> bool, p: T -> bool, q: T -> bool)
    requires forall x :: x in s ==> (both(x) <==> p(x) || q(x))
    requires forall x :: x in s ==> !(p(x) && q(x))
    ensures |Keep(s, both)| == |Keep(s, p)| + |Keep(s, q)|
  {
    if s != [] {
      assert s[0] in s;
      assert forall x :: x in s[1..] ==> x in s;
      KeepSplitCount(s[1..], both, p, q);
    }
  }

  /** Keeping by `p` and then by `q` is keeping by both at once. */
  lemma {:induction false} KeepKeep<T(!new)>(s: seq<T>, p: T -> bool, q: T -> bool, both: T -> bool)
    requires forall x :: x in s ==> (both(x) <==> p(x) && q(x))
    ensures Keep(Keep(s, p), q) == Keep(s, both)
  {
    if s != [] {
      assert s[0] in s;
      assert forall x :: x in s[1..] ==> x in s;
      KeepKeep(s[1..], p, q, both);
    }
  }

  /** Keeping after a map that does not change the mask's answer is mapping after keeping. */
  lemma {:induction false} KeepMapSeq<T(!new), U(!new)>(s: seq<T>, f: T -> U, p: U -> bool, q: T -> bool)
    requires forall x :: x in s ==> p(f(x)) == q(x)
    ensures Keep(MapSeq(s, f), p) == MapSeq(Keep(s, q), f)
  {
    if s != [] {
      assert s[0] in s;
      assert forall x :: x in s[1..] ==> x in s;
      assert MapSeq(s, f) == [f(s[0])] + MapSeq(s[1..], f);
      assert MapSeq(s, f)[1..] == MapSeq(s[1..], f);
      KeepMapSeq(s[1..], f, p, q);
    }
  }

  /** Strictly increasing integers. */
  ghost predicate StrictlyAscending(s: seq<int>)
  {
    forall i, j :: 0 <= i < j < |s| ==> s[i] < s[j]
  }

  /** Keeping some elements of a strictly increasing sequence leaves it strictly increasing. */
  lemma {:induction false} KeepAscending(s: seq<int>, p: int -> bool)
    requires StrictlyAscending(s)
    ensures StrictlyAscending(Keep(s, p))
  {
    if s != [] {
      assert StrictlyAscending(s[1..]);
      KeepAscending(s[1..], p);
      var rest := Keep(s[1..], p);
      forall x | x in rest ensures s[0] < x {
        assert x in s[1..];
        var k :| 0 <= k < |s[1..]| && s[1..][k] == x;
        assert s[k + 1] == x;
      }
      if p(s[0]) {
        var r := [s[0]] + rest;
        forall i, j | 0 <= i < j < |r| ensures r[i] < r[j] {
          if i == 0 {
            assert r[j] == rest[j - 1] && r[j] in rest;
          } else {
            assert r[i] == rest[i - 1] && r[j] == rest[j - 1];
          }
        }
      }
    }
  }

  lemma FirstTwoIn(s: seq<int>)
    ensures |s| >= 2 ==> s[0] in s && s[1] in s
  {
  }

  /** A strictly increasing sequence whose every element is `v`, and which holds `v`, is `[v]`. */
  lemma AscendingUnique(s: seq<int>, v: int)
    requires StrictlyAscending(s) && v in s
    requires forall x :: x in s ==> x == v
    ensures s == [v]
  {
    FirstTwoIn(s);
    if |s| >= 2 {
      assert false;
    }
  }
}
