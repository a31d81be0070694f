/** Directory listings keyed by a number: the largest number, and the numbers in order. */
module Numbers {

  predicate IsLargest(n: nat, s: set<nat>) {
    n in s && forall m :: m in s ==> m <= n
  }

  lemma {:induction false} LargestExists(s: set<nat>)
    requires s != {}
    ensures exists n :: IsLargest(n, s)
  {
    var n :| n in s;
    var rest := s - {n};
    if rest == {} {
      assert s == {n};
      assert IsLargest(n, s);
    } else {
      LargestExists(rest);
      var m :| IsLargest(m, rest);
      assert forall o :: o in s ==> o == n || o in rest;
      assert IsLargest(if n > m then n else m, s);
    }
  }

  function Largest(s: set<nat>): (n: nat)
    requires s != {}
    ensures IsLargest(n, s)
  {
    LargestExists(s);
    var n :| n in s && IsLargest(n, s);
    n
  }

  /** The largest number, or zero for an empty listing. */
  function Latest(s: set<nat>): nat {
    if s == {} then 0 else Largest(s)
  }

  /** The numbers in increasing order. */
  function Ascending(s: set<nat>): (order: seq<nat>)
    ensures forall n :: n in order <==> n in s
    decreases |s|
  {
    if s == {} then [] else Ascending(s - {Largest(s)}) + [Largest(s)]
  }

  ghost predicate Increasing(order: seq<nat>) {
    forall i, j :: 0 <= i < j < |order| ==> order[i] < order[j]
  }

  lemma {:induction false} AscendingIncreasing(s: set<nat>)
    ensures Increasing(Ascending(s))
    decreases |s|
  {
    if s != {} {
      AscendingIncreasing(s - {Largest(s)});
      var front := Ascending(s - {Largest(s)});
      assert forall i :: 0 <= i < |front| ==> front[i] in front;
    }
  }

  lemma AscendingAppend(s: set<nat>, n: nat)
    requires forall m :: m in s ==> m < n
    ensures Ascending(s + {n}) == Ascending(s) + [n]
  {
    assert IsLargest(n, s + {n});
    assert s + {n} - {n} == s;
  }

  /** An increasing list is the ascending list of its members. */
  lemma {:induction false} AscendingUnique(order: seq<nat>, s: set<nat>)
    requires Increasing(order) && forall n :: n in order <==> n in s
    ensures Ascending(s) == order
    decreases |order|
  {
    if order == [] {
      assert s == {};
    } else {
      var front, last := order[..|order| - 1], order[|order| - 1];
      assert order == front + [last];
      assert last in s;
      assert IsLargest(last, s);
      assert forall n :: n in front ==> n < last;
      assert forall n :: n in front <==> n in s - {last};
      AscendingUnique(front, s - {last});
    }
  }

  function Below(s: set<nat>, bound: nat): set<nat> {
    set n | n in s && n < bound
  }

  function AtLeast(s: set<nat>, bound: nat): set<nat> {
    set n | n in s && n >= bound
  }

  /** Numbers below a bound come first. */
  lemma {:induction false} AscendingSplit(s: set<nat>, bound: nat)
    ensures Ascending(s) == Ascending(Below(s, bound)) + Ascending(AtLeast(s, bound))
    decreases |s|
  {
    if s != {} {
      var top := Largest(s);
      if top >= bound {
        AscendingSplit(s - {top}, bound);
        SplitTop(s, bound, top);
      } else {
        assert AtLeast(s, bound) == {};
        assert Below(s, bound) == s;
        assert Ascending(s) + [] == Ascending(s);
      }
    }
  }

  lemma SplitTop(s: set<nat>, bound: nat, top: nat)
    requires IsLargest(top, s) && top >= bound
    ensures Below(s - {top}, bound) == Below(s, bound)
    ensures Ascending(s) == Ascending(s - {top}) + [top]
    ensures Ascending(AtLeast(s, bound)) == Ascending(AtLeast(s - {top}, bound)) + [top]
  {
    AscendingAppend(s - {top}, top);
    assert s == s - {top} + {top};
    AscendingAppend(AtLeast(s - {top}, bound), top);
    assert AtLeast(s, bound) == AtLeast(s - {top}, bound) + {top};
  }

  /** Every number from the first listed up to `last` is listed, and none above it. */
  ghost predicate NoGaps(s: set<nat>, last: nat) {
    && (forall n :: n in s ==> n <= last)
    && (forall n, m: nat :: n in s && n <= m <= last ==> m in s)
  }
}
