/** Ascending sequences of ids, as iterating an ordered set yields them. */
module Ordered {
  ghost predicate StrictlyAscending(s: seq<nat>) {
    forall i, j :: 0 <= i < j < |s| ==> s[i] < s[j]
  }

  lemma PrefixBelow(s: seq<nat>, i: nat)
    requires StrictlyAscending(s) && i < |s|
    ensures forall x :: x in s[..i] ==> x < s[i]
    ensures forall x :: x in s[..i + 1] <==> x in s[..i] || x == s[i]
  {
    assert s[..i + 1] == s[..i] + [s[i]];
  }

  lemma AppendAscending(s: seq<nat>, x: nat)
    requires StrictlyAscending(s) && forall y :: y in s ==> y < x
    ensures StrictlyAscending(s + [x])
  {
    assert forall i :: 0 <= i < |s| ==> s[i] in s;
  }

  /** The least element of a nonempty set. */
  function Least(s: set<nat>): (m: nat)
    requires s != {}
    ensures m in s && forall x :: x in s ==> m <= x
  {
    LeastExists(s);
    var m :| m in s && forall x :: x in s ==> m <= x;
    m
  }

  lemma LeastExists(s: set<nat>)
    requires s != {}
    ensures exists m :: m in s && forall x :: x in s ==> m <= x
    decreases s
  {
    var m :| m in s;
    var below := set x | x in s && x < m;
    if below == {} {
      assert forall x :: x in s ==> x !in below;
      assert forall x :: x in s ==> m <= x;
    } else {
      assert m !in below;
      LeastExists(below);
      var r :| r in below && forall x :: x in below ==> r <= x;
      assert forall x :: x in s ==> x in below || m <= x;
      assert r in s && forall x :: x in s ==> r <= x;
    }
  }

  /** The elements of `s` in ascending order. */
  function Ascending(s: set<nat>): (r: seq<nat>)
    ensures forall x :: x in r <==> x in s
    ensures StrictlyAscending(r)
    decreases |s|
  {
    if s == {} then []
    else
      var m := Least(s);
      var rest := Ascending(s - {m});
      LeastFirst(s, m, rest);
      [m] + rest
  }

  lemma LeastFirst(s: set<nat>, m: nat, rest: seq<nat>)
    requires m in s && (forall x :: x in s ==> m <= x)
    requires StrictlyAscending(rest) && forall x :: x in rest <==> x in s - {m}
    ensures StrictlyAscending([m] + rest) && forall x :: x in [m] + rest <==> x in s
  {
    assert forall i :: 0 <= i < |rest| ==> rest[i] in rest;
  }

  /** Two ascending sequences with the same elements are the same sequence. */
  lemma {:induction false} AscendingUnique(a: seq<nat>, b: seq<nat>)
    requires StrictlyAscending(a) && StrictlyAscending(b)
    requires forall x :: x in a <==> x in b
    ensures a == b
  {
    assert |b| > 0 ==> b[0] in a;
    if a == [] {
    } else {
      assert a[0] in b;
      assert b != [];
      assert b[0] in a;
      assert a[0] == b[0] by {
        var i :| 0 <= i < |b| && b[i] == a[0];
        var j :| 0 <= j < |a| && a[j] == b[0];
        assert b[0] <= b[i] && a[0] <= a[j];
      }
      forall x
        ensures x in a[1..] <==> x in b[1..]
      {
        if x in a[1..] {
          assert x in b;
          var k :| 1 <= k < |a| && a[k] == x;
          assert a[0] < a[k];
        }
        if x in b[1..] {
          assert x in a;
          var k :| 1 <= k < |b| && b[k] == x;
          assert b[0] < b[k];
        }
      }
      AscendingUnique(a[1..], b[1..]);
    }
  }
}
