/** The lexicographic order of lists and the next arrangement of a list in that order. */
module Permutations {
  import opened Sequences

  predicate Precedes(a: seq<nat>, b: seq<nat>)
  {
    |a| == |b| > 0 && (a[0] < b[0] || (a[0] == b[0] && Precedes(a[1..], b[1..])))
  }

  ghost predicate AtMost(a: seq<nat>, b: seq<nat>)
  {
    a == b || Precedes(a, b)
  }

  ghost predicate Arranged(a: seq<nat>, b: seq<nat>)
  {
    multiset(a) == multiset(b)
  }

  ghost predicate Descending(s: seq<nat>)
  {
    forall i, j :: 0 <= i < j < |s| ==> s[i] >= s[j]
  }

  lemma SameLength(a: seq<nat>, b: seq<nat>)
    requires Arranged(a, b)
    ensures |a| == |b|
  {
    assert |multiset(a)| == |a| && |multiset(b)| == |b|;
  }

  /** Equal heads leave arrangements of each other. */
  lemma ArrangedTail(a: seq<nat>, b: seq<nat>)
    requires Arranged(a, b) && |a| > 0 && |b| > 0 && a[0] == b[0]
    ensures Arranged(a[1..], b[1..])
  {
    assert a == [a[0]] + a[1..] && b == [b[0]] + b[1..];
    assert multiset(a[1..]) == multiset(a) - multiset{a[0]};
    assert multiset(b[1..]) == multiset(b) - multiset{b[0]};
  }

  lemma ArrangedMember(a: seq<nat>, b: seq<nat>, x: nat)
    requires Arranged(a, b) && x in a
    ensures x in b
  {
    assert x in multiset(b);
  }

  lemma {:induction false} Trichotomy(a: seq<nat>, b: seq<nat>)
    requires |a| == |b|
    ensures a == b || Precedes(a, b) || Precedes(b, a)
  {
    if |a| > 0 {
      Trichotomy(a[1..], b[1..]);
      if a[0] == b[0] && a[1..] == b[1..] {
        assert a == [a[0]] + a[1..] && b == [b[0]] + b[1..];
      }
    }
  }

  lemma {:induction false} PrecedesTransitive(a: seq<nat>, b: seq<nat>, c: seq<nat>)
    requires Precedes(a, b) && Precedes(b, c)
    ensures Precedes(a, c)
  {
    if a[0] == b[0] == c[0] {
      PrecedesTransitive(a[1..], b[1..], c[1..]);
    }
  }

  lemma {:induction false} PrecedesIrreflexive(a: seq<nat>)
    ensures !Precedes(a, a)
  {
    if |a| > 0 {
      PrecedesIrreflexive(a[1..]);
    }
  }

  lemma {:induction false} FirstDifference(a: seq<nat>, b: seq<nat>) returns (k: nat)
    requires Precedes(a, b)
    ensures k < |a| == |b| && a[..k] == b[..k] && a[k] < b[k]
  {
    if a[0] < b[0] {
      k := 0;
    } else {
      var rest := FirstDifference(a[1..], b[1..]);
      k := rest + 1;
      assert a[..k] == [a[0]] + a[1..][..rest] && b[..k] == [b[0]] + b[1..][..rest];
    }
  }

  /** Dictionary order, written out. */
  lemma PrecedesIsPlain(a: seq<nat>, b: seq<nat>)
    ensures Precedes(a, b) <==> |a| == |b| && exists k :: 0 <= k < |a| && a[..k] == b[..k] && a[k] < b[k]
  {
    if Precedes(a, b) {
      var k := FirstDifference(a, b);
    } else if |a| == |b| {
      forall k | 0 <= k < |a| && a[..k] == b[..k] ensures a[k] >= b[k] {
        if a[k] < b[k] {
          PrecedesAt(a, b, k);
        }
      }
    }
  }

  lemma {:induction false} PrecedesAt(a: seq<nat>, b: seq<nat>, k: nat)
    requires k < |a| == |b| && a[..k] == b[..k] && a[k] < b[k]
    ensures Precedes(a, b)
  {
    if k > 0 {
      assert a[0] == a[..k][0] == b[..k][0] == b[0];
      assert a[1..][..k - 1] == a[..k][1..] && b[1..][..k - 1] == b[..k][1..];
      PrecedesAt(a[1..], b[1..], k - 1);
    }
  }

  /** A descending list is the last of its arrangements. */
  lemma {:induction false} DescendingIsLast(s: seq<nat>, e: seq<nat>)
    requires Descending(s) && Arranged(e, s)
    ensures AtMost(e, s)
  {
    SameLength(e, s);
    if |s| > 0 {
      ArrangedMember(e, s, e[0]);
      if e[0] == s[0] {
        ArrangedTail(e, s);
        DescendingIsLast(s[1..], e[1..]);
        assert e == [e[0]] + e[1..] && s == [s[0]] + s[1..];
      }
    }
  }

  /** An ascending list is the first of its arrangements. */
  lemma {:induction false} AscendingIsFirst(s: seq<nat>, e: seq<nat>)
    requires Ascending(s) && Arranged(e, s)
    ensures AtMost(s, e)
  {
    SameLength(e, s);
    if |s| > 0 {
      ArrangedMember(e, s, e[0]);
      if e[0] == s[0] {
        ArrangedTail(e, s);
        AscendingIsFirst(s[1..], e[1..]);
        assert e == [e[0]] + e[1..] && s == [s[0]] + s[1..];
      }
    }
  }

  // ----- std::next_permutation

  datatype Next = Next(found: bool, list: seq<nat>)

  function Reversed(s: seq<nat>): (r: seq<nat>)
    ensures |r| == |s| && forall i :: 0 <= i < |s| ==> r[i] == s[|s| - 1 - i]
    ensures multiset(r) == multiset(s)
  {
    if |s| == 0 then []
    else
      assert s == [s[0]] + s[1..];
      Reversed(s[1..]) + [s[0]]
  }

  /** Last position of a descending list that holds more than x. */
  function LastAbove(s: seq<nat>, x: nat): (j: nat)
    requires |s| > 0 && s[0] > x
    ensures j < |s| && s[j] > x && (j + 1 < |s| ==> s[j + 1] <= x)
  {
    if |s| > 1 && s[1] > x then 1 + LastAbove(s[1..], x) else 0
  }

  /** The last position whose value is below its right neighbour is exchanged with the last larger value
      behind it, and what follows is reversed; a descending list has no next one. */
  function NextPermutation(s: seq<nat>): (r: Next)
  {
    if |s| <= 1 then Next(false, s)
    else
      var tail := NextPermutation(s[1..]);
      if tail.found then Next(true, [s[0]] + tail.list)
      else if s[0] < s[1] then
        var j := LastAbove(s[1..], s[0]);
        Next(true, [s[1..][j]] + Reversed(s[1..][j := s[0]]))
      else Next(false, s)
  }

  lemma ExchangeArranged(a: nat, d: seq<nat>, j: nat)
    requires j < |d|
    ensures Arranged([d[j]] + d[j := a], [a] + d)
  {
    assert d == d[..j] + [d[j]] + d[j + 1..];
    assert d[j := a] == d[..j] + [a] + d[j + 1..];
  }

  lemma ConsArranged(x: nat, a: seq<nat>, b: seq<nat>)
    requires Arranged(a, b)
    ensures Arranged([x] + a, [x] + b)
  {
    assert multiset([x] + a) == multiset{x} + multiset(a);
    assert multiset([x] + b) == multiset{x} + multiset(b);
  }

  lemma DescendingCons(s: seq<nat>)
    requires |s| > 1
    ensures Descending(s) <==> s[0] >= s[1] && Descending(s[1..])
  {
    var d := s[1..];
    if Descending(s) {
      forall i, j | 0 <= i < j < |d| ensures d[i] >= d[j] {
        assert s[i + 1] >= s[j + 1];
      }
    } else {
      var i, j :| 0 <= i < j < |s| && s[i] < s[j];
      if Descending(d) && i > 0 {
        assert d[i - 1] >= d[j - 1];
      }
      assert Descending(d) && i == 0 && j > 1 ==> d[0] >= d[j - 1];
    }
  }

  /** No next list exactly for descending lists; otherwise the next one is a larger arrangement. */
  lemma {:induction false} NextIsLarger(s: seq<nat>)
    ensures NextPermutation(s).found <==> !Descending(s)
    ensures NextPermutation(s).found ==> Arranged(NextPermutation(s).list, s) && Precedes(s, NextPermutation(s).list)
  {
    if |s| > 1 {
      var d := s[1..];
      NextIsLarger(d);
      DescendingCons(s);
      var tail := NextPermutation(d);
      assert s == [s[0]] + d;
      hide Descending;
      if tail.found {
        ConsArranged(s[0], tail.list, d);
        SameLength(tail.list, d);
        assert ([s[0]] + tail.list)[1..] == tail.list;
      } else if s[0] < s[1] {
        hide Arranged;
        ExchangeReversed(s[0], d, LastAbove(d, s[0]));
        SameLength(NextPermutation(s).list, s);
      }
    }
  }

  /** Written out: there is a next list exactly when some value is below its right neighbour, and it is an
      arrangement that is larger where it first differs. */
  lemma NextIsPlain(s: seq<nat>)
    ensures NextPermutation(s).found <==> exists i :: 0 <= i && i + 1 < |s| && s[i] < s[i + 1]
    ensures NextPermutation(s).found ==>
              var r := NextPermutation(s).list;
              && |r| == |s| && multiset(r) == multiset(s)
              && exists k :: 0 <= k < |s| && s[..k] == r[..k] && s[k] < r[k]
  {
    NextIsLarger(s);
    if NextPermutation(s).found {
      var i := SomeAscent(s);
      PrecedesIsPlain(s, NextPermutation(s).list);
    }
  }

  lemma {:induction false} SomeAscent(s: seq<nat>) returns (i: nat)
    requires !Descending(s)
    ensures i + 1 < |s| && s[i] < s[i + 1]
  {
    if |s| > 1 {
      DescendingCons(s);
      if s[0] < s[1] {
        i := 0;
      } else {
        var k := SomeAscent(s[1..]);
        i := k + 1;
      }
    }
  }

  lemma ExchangeReversed(a: nat, d: seq<nat>, j: nat)
    requires j < |d|
    ensures Arranged([d[j]] + Reversed(d[j := a]), [a] + d)
  {
    ExchangeArranged(a, d, j);
    ConsArranged(d[j], Reversed(d[j := a]), d[j := a]);
  }

  /** The values of a descending list above x are at least the last of them. */
  lemma AtLeastLastAbove(d: seq<nat>, x: nat, y: nat)
    requires Descending(d) && |d| > 0 && d[0] > x && y in d && y > x
    ensures y >= d[LastAbove(d, x)]
  {
    var j := LastAbove(d, x);
    var k :| 0 <= k < |d| && d[k] == y;
  }

  lemma ReplacedDescending(d: seq<nat>, x: nat)
    requires Descending(d) && |d| > 0 && d[0] > x
    ensures Descending(d[LastAbove(d, x) := x])
    ensures Ascending(Reversed(d[LastAbove(d, x) := x]))
  {
    var j := LastAbove(d, x);
    var c := d[j := x];
    forall i, k | 0 <= i < k < |c| ensures c[i] >= c[k] {
      if i == j {
        assert d[j + 1] >= d[k];
      }
    }
  }

  /** Nothing lies between a list and its next arrangement. */
  lemma {:induction false} NextIsSuccessor(s: seq<nat>, e: seq<nat>)
    requires NextPermutation(s).found && Arranged(e, s) && Precedes(s, e)
    ensures AtMost(NextPermutation(s).list, e)
  {
    SameLength(e, s);
    var d, r := s[1..], NextPermutation(s).list;
    var tail := NextPermutation(d);
    NextIsLarger(d);
    NextIsLarger(s);
    if tail.found {
      assert r[1..] == tail.list;
      if e[0] == s[0] {
        ArrangedTail(e, s);
        NextIsSuccessor(d, e[1..]);
        assert e == [e[0]] + e[1..] && r == [r[0]] + r[1..];
      }
    } else {
      NextAfterDescending(s, e);
    }
  }

  /** An arrangement that begins alike cannot be larger when the rest is descending. */
  lemma SameHeadIsNotLarger(s: seq<nat>, e: seq<nat>)
    requires |s| > 0 && Descending(s[1..]) && Arranged(e, s) && |e| == |s| && e[0] == s[0]
    ensures !Precedes(s, e)
  {
    var d := s[1..];
    ArrangedTail(e, s);
    DescendingIsLast(d, e[1..]);
    PrecedesIrreflexive(d);
    if Precedes(d, e[1..]) && Precedes(e[1..], d) {
      PrecedesTransitive(d, e[1..], d);
    }
  }

  lemma LargerHead(s: seq<nat>, e: seq<nat>)
    requires |s| > 1 && Descending(s[1..]) && s[0] < s[1] && Arranged(e, s) && |e| == |s| && e[0] > s[0]
    ensures e[0] >= s[1..][LastAbove(s[1..], s[0])]
  {
    ArrangedMember(e, s, e[0]);
    assert s == [s[0]] + s[1..];
    assert e[0] in s[1..];
    AtLeastLastAbove(s[1..], s[0], e[0]);
  }

  lemma FirstWithHead(x: nat, rest: seq<nat>, e: seq<nat>)
    requires Ascending(rest) && Arranged(e, [x] + rest) && |e| > 0 && e[0] == x
    ensures AtMost([x] + rest, e)
  {
    var r := [x] + rest;
    assert r[1..] == rest && e == [e[0]] + e[1..];
    ArrangedTail(e, r);
    AscendingIsFirst(rest, e[1..]);
  }

  lemma NextAfterDescending(s: seq<nat>, e: seq<nat>)
    requires |s| > 1 && Descending(s[1..]) && !NextPermutation(s[1..]).found && s[0] < s[1]
    requires Arranged(e, s) && Precedes(s, e) && |e| == |s|
    ensures AtMost(NextPermutation(s).list, e)
  {
    var d := s[1..];
    var j := LastAbove(d, s[0]);
    var rest := Reversed(d[j := s[0]]);
    assert NextPermutation(s).list == [d[j]] + rest;
    NextIsLarger(s);
    ReplacedDescending(d, s[0]);
    hide NextPermutation, LastAbove, Descending;
    if e[0] == s[0] {
      SameHeadIsNotLarger(s, e);
    } else {
      LargerHead(s, e);
      hide Arranged;
      if e[0] == d[j] {
        NextArranged(s, e, [d[j]] + rest);
        FirstWithHead(d[j], rest, e);
      }
    }
  }

  lemma NextArranged(s: seq<nat>, e: seq<nat>, r: seq<nat>)
    requires Arranged(e, s) && Arranged(r, s)
    ensures Arranged(e, r)
  {
  }

  /** So the arrangements up to the next one are those up to this one, and the next one. */
  lemma UpToNext(s: seq<nat>, e: seq<nat>)
    requires NextPermutation(s).found && Arranged(e, s)
    ensures AtMost(e, NextPermutation(s).list) <==> AtMost(e, s) || e == NextPermutation(s).list
  {
    var r := NextPermutation(s).list;
    NextIsLarger(s);
    SameLength(e, s);
    Trichotomy(e, s);
    if Precedes(s, e) {
      NextIsSuccessor(s, e);
      PrecedesIrreflexive(e);
      if Precedes(e, r) && Precedes(r, e) {
        PrecedesTransitive(e, r, e);
      }
      if Precedes(e, s) {
        PrecedesTransitive(e, s, e);
      }
    } else if Precedes(e, s) {
      PrecedesTransitive(e, s, r);
    }
  }

  // ----- going through all arrangements

  /** Arrangements of s up to cur. */
  ghost predicate Reached(e: seq<nat>, s: seq<nat>, cur: seq<nat>)
  {
    Arranged(e, s) && AtMost(e, cur)
  }

  lemma AtMostBothWays(a: seq<nat>, b: seq<nat>)
    requires AtMost(a, b) && AtMost(b, a)
    ensures a == b
  {
    if a != b {
      PrecedesTransitive(a, b, a);
      PrecedesIrreflexive(a);
    }
  }

  lemma ReachedFirst(e: seq<nat>, s: seq<nat>, first: seq<nat>)
    requires Ascending(first) && Arranged(first, s)
    ensures Reached(e, s, first) <==> e == first
  {
    if Reached(e, s, first) {
      AscendingIsFirst(first, e);
      AtMostBothWays(e, first);
    }
  }

  lemma ReachedNext(e: seq<nat>, s: seq<nat>, cur: seq<nat>)
    requires Arranged(cur, s) && NextPermutation(cur).found
    ensures Arranged(NextPermutation(cur).list, s) && Precedes(cur, NextPermutation(cur).list)
    ensures Reached(e, s, NextPermutation(cur).list) <==> Reached(e, s, cur) || e == NextPermutation(cur).list
  {
    NextIsLarger(cur);
    if Arranged(e, s) {
      UpToNext(cur, e);
    }
  }

  lemma ReachedLast(e: seq<nat>, s: seq<nat>, last: seq<nat>)
    requires Arranged(last, s) && !NextPermutation(last).found
    ensures Reached(e, s, last) <==> Arranged(e, s)
  {
    NextIsLarger(last);
    if Arranged(e, s) {
      DescendingIsLast(last, e);
    }
  }
}
