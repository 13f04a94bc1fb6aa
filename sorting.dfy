/**
 * Python's ordering of strings (code point by code point, a proper prefix
 * first) and the in-place `list.sort()` of the partial index names.
 */
module Sorting {

  /** `a <= b` on Python strings. */
  predicate LexLe(a: string, b: string)
    decreases |a|
  {
    |a| == 0 || (|b| > 0 && (a[0] < b[0] || (a[0] == b[0] && LexLe(a[1..], b[1..]))))
  }

  lemma {:induction false} LexLeTotal(a: string, b: string)
    ensures LexLe(a, b) || LexLe(b, a)
    decreases |a|
  {
    if |a| > 0 && |b| > 0 && a[0] == b[0] {
      LexLeTotal(a[1..], b[1..]);
    }
  }

  lemma {:induction false} LexLeRefl(a: string)
    ensures LexLe(a, a)
    decreases |a|
  {
    if |a| > 0 {
      LexLeRefl(a[1..]);
    }
  }

  lemma {:induction false} LexLeTrans(a: string, b: string, c: string)
    requires LexLe(a, b) && LexLe(b, c)
    ensures LexLe(a, c)
    decreases |a|
  {
    if |a| > 0 && a[0] == b[0] && b[0] == c[0] {
      LexLeTrans(a[1..], b[1..], c[1..]);
    }
  }

  lemma {:induction false} LexLeAntisym(a: string, b: string)
    requires LexLe(a, b) && LexLe(b, a)
    ensures a == b
    decreases |a|
  {
    if |a| > 0 {
      LexLeAntisym(a[1..], b[1..]);
      assert a == [a[0]] + a[1..] && b == [b[0]] + b[1..];
    }
  }

  predicate Sorted(s: seq<string>) {
    forall i, j :: 0 <= i < j < |s| ==> LexLe(s[i], s[j])
  }

  /** The first `n` names are in order. */
  predicate SortedUpTo(s: seq<string>, n: nat)
    requires n <= |s|
  {
    forall p, q :: 0 <= p < q < n ==> LexLe(s[p], s[q])
  }

  /**
   * Halfway through sinking `s[j]` into the sorted `s[..i + 1]`: apart from
   * position `j` the prefix is in order, and `s[j]` does not exceed anything after it.
   */
  predicate Sinking(s: seq<string>, i: nat, j: nat) {
    j <= i < |s| &&
    (forall p, q :: 0 <= p < q <= i && p != j && q != j ==> LexLe(s[p], s[q])) &&
    (forall q :: j < q <= i ==> LexLe(s[j], s[q]))
  }

  /** `list.sort()` on the names, in place: insertion sort by adjacent swaps. */
  method SortInPlace(a: array<string>)
    modifies a
    ensures Sorted(a[..])
    ensures multiset(a[..]) == multiset(old(a[..]))
  {
    var i := 0;
    while i < a.Length
      invariant 0 <= i <= a.Length
      invariant SortedUpTo(a[..], i)
      invariant multiset(a[..]) == multiset(old(a[..]))
    {
      SinkLast(a, i);
      i := i + 1;
    }
  }

  /** Moves `a[i]` down past every greater name, extending the sorted prefix `a[..i]` by one. */
  method SinkLast(a: array<string>, i: nat)
    requires i < a.Length && SortedUpTo(a[..], i)
    modifies a
    ensures SortedUpTo(a[..], i + 1)
    ensures multiset(a[..]) == multiset(old(a[..]))
    ensures a[i + 1..] == old(a[i + 1..])
  {
    var j: nat := i;
    assert Sinking(a[..], i, i);
    while j > 0 && !LexLe(a[j - 1], a[j])
      invariant Sinking(a[..], i, j)
      invariant multiset(a[..]) == multiset(old(a[..]))
      invariant a[i + 1..] == old(a[i + 1..])
    {
      ghost var before := a[..];
      a[j - 1], a[j] := a[j], a[j - 1];
      assert a[..] == before[j - 1 := before[j]][j := before[j - 1]];
      SinkStep(before, i, j);
      j := j - 1;
    }
    SinkDone(a[..], i, j);
  }

  /** Swapping `s[j]` with a greater left neighbour moves the sinking name one place down. */
  lemma SinkStep(s: seq<string>, i: nat, j: nat)
    requires Sinking(s, i, j) && 0 < j && !LexLe(s[j - 1], s[j])
    ensures Sinking(s[j - 1 := s[j]][j := s[j - 1]], i, j - 1)
    ensures multiset(s[j - 1 := s[j]][j := s[j - 1]]) == multiset(s)
  {
    var t := s[j - 1 := s[j]][j := s[j - 1]];
    LexLeTotal(s[j - 1], s[j]);
    forall q | j - 1 < q <= i ensures LexLe(t[j - 1], t[q]) {
      if q > j {
        assert t[q] == s[q];
      }
    }
    forall p, q | 0 <= p < q <= i && p != j - 1 && q != j - 1 ensures LexLe(t[p], t[q]) {
      if p == j {
        assert t[p] == s[j - 1] && t[q] == s[q];
      } else if q == j {
        assert t[q] == s[j - 1] && t[p] == s[p];
      } else {
        assert t[p] == s[p] && t[q] == s[q];
      }
    }
    SwapKeepsMultiset(s, j - 1, j);
  }

  /** Once the left neighbour does not exceed it, the sinking name is in place. */
  lemma SinkDone(s: seq<string>, i: nat, j: nat)
    requires Sinking(s, i, j) && (j == 0 || LexLe(s[j - 1], s[j]))
    ensures SortedUpTo(s, i + 1)
  {
    forall p, q | 0 <= p < q <= i ensures LexLe(s[p], s[q]) {
      if q == j && p < j - 1 {
        LexLeTrans(s[p], s[j - 1], s[j]);
      } else if p == j {
      } else if q == j {
      }
    }
  }

  lemma SwapKeepsMultiset(s: seq<string>, i: nat, j: nat)
    requires i < j < |s|
    ensures multiset(s[i := s[j]][j := s[i]]) == multiset(s)
  {
    var t := s[i := s[j]];
    assert multiset(t) == multiset(s) - multiset{s[i]} + multiset{s[j]};
    assert t[j] == s[j];
    assert multiset(t[j := s[i]]) == multiset(t) - multiset{s[j]} + multiset{s[i]};
  }

  /** Putting a name before a sorted list that it does not exceed keeps the list sorted. */
  lemma SortedCons(x: string, s: seq<string>)
    requires Sorted(s)
    requires forall j :: 0 <= j < |s| ==> LexLe(x, s[j])
    ensures Sorted([x] + s)
  {
    var r := [x] + s;
    forall i, j | 0 <= i < j < |r| ensures LexLe(r[i], r[j]) {
      assert r[j] == s[j - 1];
      if i > 0 {
        assert r[i] == s[i - 1];
      }
    }
  }

  /** A name no greater than the head of a sorted list is no greater than any of it. */
  lemma BelowHead(x: string, s: seq<string>)
    requires Sorted(s) && |s| > 0 && LexLe(x, s[0])
    ensures forall j :: 0 <= j < |s| ==> LexLe(x, s[j])
  {
    forall j | 0 <= j < |s| ensures LexLe(x, s[j]) {
      if j > 0 { LexLeTrans(x, s[0], s[j]); }
    }
  }

  /** `h`, below `x` and below every name of `rest`, is below every name of a rearrangement of both. */
  lemma BelowAll(h: string, x: string, rest: seq<string>, t: seq<string>)
    requires LexLe(h, x)
    requires forall j :: 0 <= j < |rest| ==> LexLe(h, rest[j])
    requires multiset(t) == multiset(rest) + multiset{x}
    ensures forall j :: 0 <= j < |t| ==> LexLe(h, t[j])
  {
    forall j | 0 <= j < |t| ensures LexLe(h, t[j]) {
      assert t[j] in multiset(t);
      if t[j] != x {
        assert t[j] in multiset(rest);
        var k :| 0 <= k < |rest| && rest[k] == t[j];
      }
    }
  }

  /** Inserting into a sorted list keeps it sorted and adds exactly the one name. */
  function Insert(x: string, s: seq<string>): (r: seq<string>)
    requires Sorted(s)
    ensures Sorted(r)
    ensures multiset(r) == multiset(s) + multiset{x}
  {
    if s == [] then [x]
    else if LexLe(x, s[0]) then
      BelowHead(x, s);
      SortedCons(x, s);
      [x] + s
    else
      var rest := s[1..];
      var tail := Insert(x, rest);
      assert s == [s[0]] + rest;
      LexLeTotal(x, s[0]);
      LexLeRefl(s[0]);
      BelowHead(s[0], s);
      assert forall j :: 0 <= j < |rest| ==> LexLe(s[0], rest[j]) by {
        forall j | 0 <= j < |rest| ensures LexLe(s[0], rest[j]) { assert rest[j] == s[j + 1]; }
      }
      BelowAll(s[0], x, rest, tail);
      SortedCons(s[0], tail);
      [s[0]] + tail
  }

  /** The sorted arrangement of a list of names. */
  function SortedNames(s: seq<string>): (r: seq<string>)
    ensures Sorted(r)
    ensures multiset(r) == multiset(s)
  {
    if s == [] then []
    else
      assert s == s[..|s| - 1] + [s[|s| - 1]];
      Insert(s[|s| - 1], SortedNames(s[..|s| - 1]))
  }

  lemma SortedHeadLeast(s: seq<string>, x: string)
    requires Sorted(s) && x in s
    ensures LexLe(s[0], x)
  {
    var i :| 0 <= i < |s| && s[i] == x;
    LexLeRefl(s[0]);
  }

  lemma SortedTail(s: seq<string>)
    requires Sorted(s) && |s| > 0
    ensures Sorted(s[1..])
  {
  }

  /** Two sorted arrangements of the same names are the same list. */
  lemma {:induction false} SortedUnique(a: seq<string>, b: seq<string>)
    requires Sorted(a) && Sorted(b)
    requires multiset(a) == multiset(b)
    ensures a == b
  {
    if a == [] {
      assert |multiset(b)| == 0;
    } else {
      assert a[0] in multiset(b) && b != [];
      assert b[0] in multiset(a);
      SortedHeadLeast(a, b[0]);
      SortedHeadLeast(b, a[0]);
      LexLeAntisym(a[0], b[0]);
      assert a == [a[0]] + a[1..] && b == [b[0]] + b[1..];
      calc {
        multiset(a[1..]);
        multiset(a) - multiset{a[0]};
        multiset(b) - multiset{b[0]};
        multiset(b[1..]);
      }
      SortedTail(a);
      SortedTail(b);
      SortedUnique(a[1..], b[1..]);
    }
  }
}
