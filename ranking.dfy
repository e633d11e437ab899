/**
 * Ordering of the detected objects before they are spoken: a two-key
 * comparator (urgency first, distance as tie-break) and the stable in-place
 * sort that applies it to the response's object array.
 */
module Ranking {
  import opened Types

  /** high = 0 < medium = 1 < low = 2. */
  function UrgencyRank(u: Urgency): (r: nat)
    ensures r < 3
  {
    match u
    case High => 0
    case Medium => 1
    case Low => 2
  }

  /** immediate = 0 < near = 1 < medium = 2 < far = 3. */
  function DistanceRank(d: Distance): (r: nat)
    ensures r < 4
  {
    match d
    case Immediate => 0
    case Near => 1
    case Medium => 2
    case Far => 3
  }

  /** The lexicographic pair (urgency rank, distance rank) folded into one number in 0..11. */
  function Key(o: DetectedObject): nat
  {
    4 * UrgencyRank(o.urgency) + DistanceRank(o.distance)
  }

  /**
   * The comparator passed to sort: negative when `a` is to be spoken first.
   * Its sign is that of the lexicographic comparison of the two rank pairs,
   * and it is zero exactly when both urgency and distance agree.
   */
  function Compare(a: DetectedObject, b: DetectedObject): (r: int)
    ensures r == 0 <==> a.urgency == b.urgency && a.distance == b.distance
    ensures r < 0 <==> Key(a) < Key(b)
    ensures r > 0 <==> Key(a) > Key(b)
  {
    if UrgencyRank(a.urgency) != UrgencyRank(b.urgency) then
      UrgencyRank(a.urgency) - UrgencyRank(b.urgency)
    else
      DistanceRank(a.distance) - DistanceRank(b.distance)
  }

  /** The ranks follow the declared orders. */
  lemma RankOrders()
    ensures UrgencyRank(High) < UrgencyRank(Urgency.Medium) < UrgencyRank(Low)
    ensures DistanceRank(Immediate) < DistanceRank(Near) < DistanceRank(Distance.Medium) < DistanceRank(Far)
  {
  }

  /** Urgency decides alone; distance is consulted only when urgencies tie. */
  lemma UrgencyFirst(a: DetectedObject, b: DetectedObject)
    ensures UrgencyRank(a.urgency) < UrgencyRank(b.urgency) ==> Compare(a, b) < 0
    ensures a.urgency == b.urgency ==> Compare(a, b) == DistanceRank(a.distance) - DistanceRank(b.distance)
  {
  }

  /** Swapping the arguments negates the comparison. */
  lemma CompareAntisymmetric(a: DetectedObject, b: DetectedObject)
    ensures Compare(a, b) == -Compare(b, a)
  {
  }

  /** Non-decreasing in the rank pair: no object is spoken before one that outranks it. */
  ghost predicate Sorted(s: seq<DetectedObject>)
  {
    forall i, j :: 0 <= i < j < |s| ==> Compare(s[i], s[j]) <= 0
  }

  /** `[y]` when `y` has rank pair `k`, otherwise nothing: what `y` alone contributes to `WithKey`. */
  function Keep(y: DetectedObject, k: nat): seq<DetectedObject>
  {
    if Key(y) == k then [y] else []
  }

  /** The objects of `s` whose rank pair is `k`, in their order in `s`. */
  function WithKey(s: seq<DetectedObject>, k: nat): seq<DetectedObject>
  {
    if s == [] then []
    else
      WithKey(s[..|s| - 1], k) + Keep(s[|s| - 1], k)
  }

  /** `r` keeps, for every rank pair, the relative order that the equal-ranked objects had in `s`. */
  ghost predicate Stable(s: seq<DetectedObject>, r: seq<DetectedObject>)
  {
    forall k: nat :: WithKey(r, k) == WithKey(s, k)
  }

  lemma {:induction false} WithKeyAppend(a: seq<DetectedObject>, b: seq<DetectedObject>, k: nat)
    ensures WithKey(a + b, k) == WithKey(a, k) + WithKey(b, k)
  {
    if b == [] {
      assert a + b == a;
    } else {
      var b' := b[..|b| - 1];
      assert (a + b)[..|a + b| - 1] == a + b';
      WithKeyAppend(a, b', k);
    }
  }

  /**
   * Places `x` after every object of the sorted `t` that does not outrank it:
   * it walks past the objects at the end of `t` that compare greater, which is
   * what keeps equal-ranked objects in their original order.
   */
  function Insert(t: seq<DetectedObject>, x: DetectedObject): (r: seq<DetectedObject>)
    ensures |r| == |t| + 1
  {
    if t == [] then [x]
    else if Compare(t[|t| - 1], x) > 0 then
      assert t == t[..|t| - 1] + [t[|t| - 1]];
      Insert(t[..|t| - 1], x) + [t[|t| - 1]]
    else t + [x]
  }

  /** `x` goes after the last object of `t` when that object does not compare greater. */
  lemma InsertStays(t: seq<DetectedObject>, x: DetectedObject)
    requires t == [] || Compare(t[|t| - 1], x) <= 0
    ensures Insert(t, x) == t + [x]
  {
  }

  /** `x` moves in front of a last object that compares greater. */
  lemma InsertPasses(t: seq<DetectedObject>, x: DetectedObject)
    requires t != [] && Compare(t[|t| - 1], x) > 0
    ensures Insert(t, x) == Insert(t[..|t| - 1], x) + [t[|t| - 1]]
  {
  }

  /** Where `x` lands in `t`: behind the longest suffix of `t` that compares greater than `x`. */
  function Slot(t: seq<DetectedObject>, x: DetectedObject): (p: nat)
    ensures p <= |t|
  {
    if t == [] || Compare(t[|t| - 1], x) <= 0 then |t|
    else Slot(t[..|t| - 1], x)
  }

  /** Passing one more greater object leaves the slot unchanged. */
  lemma SlotPass(t: seq<DetectedObject>, j: nat, x: DetectedObject)
    requires 0 < j <= |t| && Compare(t[j - 1], x) > 0
    ensures Slot(t[..j - 1], x) == Slot(t[..j], x)
  {
    assert t[..j][..j - 1] == t[..j - 1];
  }

  /** The walk stops at the slot. */
  lemma SlotStop(t: seq<DetectedObject>, j: nat, x: DetectedObject)
    requires j <= |t| && (j == 0 || Compare(t[j - 1], x) <= 0)
    ensures Slot(t[..j], x) == j
  {
  }

  /** Inserting is splicing `x` in at its slot. */
  lemma {:induction false} InsertAtSlot(t: seq<DetectedObject>, x: DetectedObject)
    ensures Insert(t, x) == t[..Slot(t, x)] + [x] + t[Slot(t, x)..]
  {
    if t == [] || Compare(t[|t| - 1], x) <= 0 {
      InsertStays(t, x);
      assert t[..|t|] == t && t[|t|..] == [];
    } else {
      var t' := t[..|t| - 1];
      InsertPasses(t, x);
      InsertAtSlot(t', x);
      var p := Slot(t', x);
      assert t'[..p] == t[..p];
      assert t'[p..] + [t[|t| - 1]] == t[p..];
    }
  }

  /** The objects in the order the stable sort leaves them. */
  function Ranked(s: seq<DetectedObject>): (r: seq<DetectedObject>)
    ensures |r| == |s|
  {
    if s == [] then []
    else
      assert s == s[..|s| - 1] + [s[|s| - 1]];
      Insert(Ranked(s[..|s| - 1]), s[|s| - 1])
  }

  lemma {:induction false} InsertPermutes(t: seq<DetectedObject>, x: DetectedObject)
    ensures multiset(Insert(t, x)) == multiset(t) + multiset{x}
  {
    if t != [] && Compare(t[|t| - 1], x) > 0 {
      var t', last := t[..|t| - 1], t[|t| - 1];
      InsertPermutes(t', x);
      assert t == t' + [last];
    }
  }

  /** The sort neither drops nor duplicates objects: the result is a permutation of the input. */
  lemma {:induction false} RankedPermutes(s: seq<DetectedObject>)
    ensures multiset(Ranked(s)) == multiset(s)
  {
    if s != [] {
      var s', last := s[..|s| - 1], s[|s| - 1];
      assert Ranked(s) == Insert(Ranked(s'), last);
      assert multiset(s) == multiset(s') + multiset{last} by {
        assert s == s' + [last];
      }
      RankedPermutes(s');
      InsertPermutes(Ranked(s'), last);
    }
  }

  /** Appending an object that no earlier object outranks keeps the order. */
  lemma SortedSnoc(u: seq<DetectedObject>, y: DetectedObject)
    requires Sorted(u)
    requires forall i :: 0 <= i < |u| ==> Key(u[i]) <= Key(y)
    ensures Sorted(u + [y])
  {
    var v := u + [y];
    forall i, j | 0 <= i < j < |v|
      ensures Compare(v[i], v[j]) <= 0
    {
      assert v[i] == u[i];
      if j < |u| {
        assert v[j] == u[j];
      }
    }
  }

  /** Every object of a sorted sequence is bounded by the last one. */
  lemma SortedBoundedByLast(t: seq<DetectedObject>)
    requires Sorted(t) && t != []
    ensures forall i :: 0 <= i < |t| ==> Key(t[i]) <= Key(t[|t| - 1])
  {
    forall i | 0 <= i < |t| - 1
      ensures Key(t[i]) <= Key(t[|t| - 1])
    {
      assert Compare(t[i], t[|t| - 1]) <= 0;
    }
  }

  lemma {:induction false} InsertSorted(t: seq<DetectedObject>, x: DetectedObject)
    requires Sorted(t)
    ensures Sorted(Insert(t, x))
  {
    if t == [] {
      assert Insert(t, x) == [x];
    } else if Compare(t[|t| - 1], x) > 0 {
      var t', last := t[..|t| - 1], t[|t| - 1];
      SortedDropLast(t);
      InsertSorted(t', x);
      InsertPermutes(t', x);
      SortedBoundedByLast(t);
      var u := Insert(t', x);
      forall i | 0 <= i < |u|
        ensures Key(u[i]) <= Key(last)
      {
        assert u[i] in multiset(u);
        if u[i] != x {
          assert u[i] in multiset(t');
          var j :| 0 <= j < |t'| && t'[j] == u[i];
          assert t[j] == u[i];
        }
      }
      SortedSnoc(u, last);
      InsertPasses(t, x);
    } else {
      SortedBoundedByLast(t);
      SortedSnoc(t, x);
      InsertStays(t, x);
    }
  }

  /** The objects of one rank pair seen in `[y]`. */
  lemma WithKeySingle(y: DetectedObject, k: nat)
    ensures WithKey([y], k) == Keep(y, k)
  {
    assert [y][..0] == [];
  }

  /** Appending one object extends the objects of rank pair `k` by that object when it has that rank pair. */
  lemma WithKeySnoc(s: seq<DetectedObject>, y: DetectedObject, k: nat)
    ensures WithKey(s + [y], k) == WithKey(s, k) + Keep(y, k)
  {
    assert (s + [y])[..|s|] == s;
  }

  /** Passing an object of higher rank moves it behind `x` without disturbing any rank's order. */
  lemma PassOverStable(u: seq<DetectedObject>, t: seq<DetectedObject>, last: DetectedObject, x: DetectedObject, k: nat)
    requires Key(last) > Key(x)
    requires WithKey(u, k) == WithKey(t, k) + Keep(x, k)
    ensures WithKey(u + [last], k) == WithKey(t + [last], k) + Keep(x, k)
  {
    if Key(x) == k {
      calc {
        WithKey(u + [last], k);
      == { WithKeySnoc(u, last, k); }
        WithKey(u, k) + Keep(last, k);
      == { assert Keep(last, k) == []; }
        WithKey(t, k) + [x];
      == { WithKeySnoc(t, last, k); assert Keep(last, k) == []; }
        WithKey(t + [last], k) + [x];
      }
    } else {
      calc {
        WithKey(u + [last], k);
      == { WithKeySnoc(u, last, k); }
        WithKey(u, k) + Keep(last, k);
      == { assert Keep(x, k) == []; }
        WithKey(t, k) + Keep(last, k);
      == { WithKeySnoc(t, last, k); }
        WithKey(t + [last], k);
      == { assert Keep(x, k) == []; }
        WithKey(t + [last], k) + Keep(x, k);
      }
    }
  }

  lemma {:induction false} InsertStable(t: seq<DetectedObject>, x: DetectedObject, k: nat)
    ensures WithKey(Insert(t, x), k) == WithKey(t, k) + Keep(x, k)
  {
    if t == [] {
      WithKeySingle(x, k);
      assert Insert(t, x) == [x];
      assert WithKey(t, k) == [];
    } else if Compare(t[|t| - 1], x) > 0 {
      var t', last := t[..|t| - 1], t[|t| - 1];
      assert t == t' + [last];
      assert Insert(t, x) == Insert(t', x) + [last];
      InsertStable(t', x, k);
      PassOverStable(Insert(t', x), t', last, x, k);
    } else {
      assert Insert(t, x) == t + [x];
      WithKeyAppend(t, [x], k);
      WithKeySingle(x, k);
    }
  }

  /** The sort leaves the objects in non-decreasing rank order. */
  lemma {:induction false} RankedSorted(s: seq<DetectedObject>)
    ensures Sorted(Ranked(s))
  {
    if s != [] {
      RankedSorted(s[..|s| - 1]);
      InsertSorted(Ranked(s[..|s| - 1]), s[|s| - 1]);
    }
  }

  /** Objects of equal rank keep their original relative order. */
  lemma {:induction false} RankedStable(s: seq<DetectedObject>)
    ensures Stable(s, Ranked(s))
  {
    if s != [] {
      var s', last := s[..|s| - 1], s[|s| - 1];
      RankedStable(s');
      RankedSorted(s');
      forall k: nat
        ensures WithKey(Ranked(s), k) == WithKey(s, k)
      {
        InsertStable(Ranked(s'), last, k);
      }
    }
  }

  /** A rank pair that is seen at all is carried by some object of the sequence. */
  lemma {:induction false} WithKeyMember(v: seq<DetectedObject>, k: nat) returns (i: nat)
    requires WithKey(v, k) != []
    ensures i < |v| && Key(v[i]) == k
  {
    var v', last := v[..|v| - 1], v[|v| - 1];
    if Key(last) == k {
      i := |v| - 1;
    } else {
      i := WithKeyMember(v', k);
    }
  }

  /** In a sorted sequence no rank present exceeds the rank of the last object. */
  lemma PresentKeyBound(v: seq<DetectedObject>, k: nat)
    requires Sorted(v) && WithKey(v, k) != []
    ensures v != [] && k <= Key(v[|v| - 1])
  {
    var i := WithKeyMember(v, k);
    if i < |v| - 1 {
      assert Compare(v[i], v[|v| - 1]) <= 0;
    }
  }

  /** The last object is seen among the objects of its own rank. */
  lemma LastKeyPresent(v: seq<DetectedObject>)
    requires v != []
    ensures WithKey(v, Key(v[|v| - 1])) == WithKey(v[..|v| - 1], Key(v[|v| - 1])) + [v[|v| - 1]]
  {
  }

  lemma SortedDropLast(v: seq<DetectedObject>)
    requires Sorted(v) && v != []
    ensures Sorted(v[..|v| - 1])
  {
    var v' := v[..|v| - 1];
    forall i, j | 0 <= i < j < |v'|
      ensures Compare(v'[i], v'[j]) <= 0
    {
      assert v'[i] == v[i] && v'[j] == v[j];
    }
  }

  /** Two sorted sequences with the same objects per rank pair end with the same object. */
  lemma LastAgrees(u: seq<DetectedObject>, v: seq<DetectedObject>)
    requires Sorted(u) && Sorted(v) && u != [] && v != []
    requires forall k: nat :: WithKey(u, k) == WithKey(v, k)
    ensures u[|u| - 1] == v[|v| - 1]
  {
    var x, y := u[|u| - 1], v[|v| - 1];
    LastKeyPresent(u);
    LastKeyPresent(v);
    assert WithKey(v, Key(x)) != [] by {
      assert WithKey(u, Key(x)) == WithKey(v, Key(x));
    }
    assert WithKey(u, Key(y)) != [] by {
      assert WithKey(u, Key(y)) == WithKey(v, Key(y));
    }
    PresentKeyBound(v, Key(x));
    PresentKeyBound(u, Key(y));
    assert Key(x) == Key(y);
    var w := WithKey(u, Key(x));
    assert w == WithKey(v, Key(y));
    assert w[|w| - 1] == x;
    assert w[|w| - 1] == y;
  }

  /** Dropping the same last object from both keeps the objects per rank pair equal. */
  lemma DropLastAgrees(u: seq<DetectedObject>, v: seq<DetectedObject>, k: nat)
    requires u != [] && v != [] && u[|u| - 1] == v[|v| - 1]
    requires WithKey(u, k) == WithKey(v, k)
    ensures WithKey(u[..|u| - 1], k) == WithKey(v[..|v| - 1], k)
  {
    var tail := Keep(u[|u| - 1], k);
    var w := WithKey(u, k);
    assert w == WithKey(u[..|u| - 1], k) + tail;
    assert w == WithKey(v[..|v| - 1], k) + tail;
    assert WithKey(u[..|u| - 1], k) == w[..|w| - |tail|];
  }

  /**
   * A sorted arrangement that keeps the order within every rank is unique, so
   * any stable sort with this comparator yields exactly Ranked(s).
   */
  lemma {:induction false} SortedStableUnique(u: seq<DetectedObject>, v: seq<DetectedObject>)
    requires Sorted(u) && Sorted(v)
    requires forall k: nat :: WithKey(u, k) == WithKey(v, k)
    ensures u == v
    decreases |u|
  {
    if u == [] {
      if v != [] {
        LastKeyPresent(v);
        assert false;
      }
    } else if v == [] {
      LastKeyPresent(u);
      assert false;
    } else {
      var u', v' := u[..|u| - 1], v[..|v| - 1];
      LastAgrees(u, v);
      forall k: nat
        ensures WithKey(u', k) == WithKey(v', k)
      {
        DropLastAgrees(u, v, k);
      }
      SortedDropLast(u);
      SortedDropLast(v);
      SortedStableUnique(u', v');
      assert u == u' + [u[|u| - 1]] && v == v' + [v[|v| - 1]];
    }
  }

  /** Ranked(s) is the only sorted, order-keeping permutation of s. */
  lemma RankedCharacterized(s: seq<DetectedObject>, r: seq<DetectedObject>)
    requires Sorted(r) && Stable(s, r)
    ensures r == Ranked(s)
  {
    RankedSorted(s);
    RankedStable(s);
    SortedStableUnique(r, Ranked(s));
  }

  /** `t` with `x` spliced in at index `j`. */
  function Splice(t: seq<DetectedObject>, x: DetectedObject, j: nat): seq<DetectedObject>
    requires j <= |t|
  {
    t[..j] + [x] + t[j..]
  }

  /** Swapping `x` with its left neighbour moves the splice point one to the left. */
  lemma SpliceSwap(t: seq<DetectedObject>, x: DetectedObject, j: nat, rest: seq<DetectedObject>)
    requires 0 < j <= |t|
    ensures (Splice(t, x, j) + rest)[j - 1] == t[j - 1] && (Splice(t, x, j) + rest)[j] == x
    ensures (Splice(t, x, j) + rest)[j - 1 := x][j := t[j - 1]] == Splice(t, x, j - 1) + rest
  {
    var before := Splice(t, x, j) + rest;
    var after := Splice(t, x, j - 1) + rest;
    assert |before| == |after|;
    forall m | 0 <= m < |after|
      ensures before[j - 1 := x][j := t[j - 1]][m] == after[m]
    {
      if m < j - 1 {
        assert before[m] == t[m] && after[m] == t[m];
      } else if j < m <= |t| {
        assert before[m] == t[m - 1] && after[m] == t[m - 1];
      } else if m > |t| {
        assert before[m] == rest[m - |t| - 1] && after[m] == rest[m - |t| - 1];
      }
    }
  }

  /** Once the walk has stopped at the slot, the prefix holds the insertion and the rest is untouched. */
  lemma SpliceAtSlot(s: seq<DetectedObject>, t: seq<DetectedObject>, x: DetectedObject, j: nat, rest: seq<DetectedObject>)
    requires j <= |t| && s == Splice(t, x, j) + rest
    requires j == 0 || Compare(s[j - 1], s[j]) <= 0
    requires Slot(t[..j], x) == Slot(t, x)
    ensures s[..|t| + 1] == Insert(t, x) && s[|t| + 1..] == rest
  {
    assert j > 0 ==> s[j - 1] == t[j - 1] && s[j] == x;
    SlotStop(t, j, x);
    InsertAtSlot(t, x);
  }

  /** The ranking is a stable sort: ordered by rank, a permutation, and order-keeping among equal ranks. */
  lemma RankedIsStableSort(s: seq<DetectedObject>)
    ensures Sorted(Ranked(s))
    ensures multiset(Ranked(s)) == multiset(s)
    ensures Stable(s, Ranked(s))
  {
    RankedSorted(s);
    RankedPermutes(s);
    RankedStable(s);
  }

  /**
   * Moves `a[i]` left past the objects before it that compare greater than it:
   * one step of the in-place sort.
   */
  method InsertAt(a: array<DetectedObject>, i: nat)
    requires i < a.Length
    modifies a
    ensures a[..i + 1] == Insert(old(a[..i]), old(a[i]))
    ensures a[i + 1..] == old(a[i + 1..])
  {
    ghost var t := a[..i];
    ghost var x := a[i];
    ghost var rest := a[i + 1..];
    var j := i;
    assert t[..j] == t && t[j..] == [];
    assert a[..] == Splice(t, x, j) + rest;
    while j > 0 && Compare(a[j - 1], a[j]) > 0
      invariant 0 <= j <= i
      invariant a[..] == Splice(t, x, j) + rest
      invariant Slot(t[..j], x) == Slot(t, x)
    {
      SpliceSwap(t, x, j, rest);
      SlotPass(t, j, x);
      a[j - 1], a[j] := a[j], a[j - 1];
      j := j - 1;
    }
    SpliceAtSlot(a[..], t, x, j, rest);
  }

  /** Ranking one more object of the input inserts it into the ranking of those before it. */
  lemma RankedStep(input: seq<DetectedObject>, i: nat)
    requires i < |input|
    ensures Ranked(input[..i + 1]) == Insert(Ranked(input[..i]), input[i])
  {
    assert input[..i + 1][..i] == input[..i];
  }

  /** The in-place sort of the response's objects: insertion of each object in turn. */
  method SortObjects(a: array<DetectedObject>)
    modifies a
    ensures a[..] == Ranked(old(a[..]))
  {
    ghost var input := a[..];
    var i := 0;
    while i < a.Length
      invariant 0 <= i <= a.Length
      invariant a[..i] == Ranked(input[..i])
      invariant a[i..] == input[i..]
    {
      assert a[i] == input[i] by {
        assert a[i..][0] == input[i..][0];
      }
      InsertAt(a, i);
      RankedStep(input, i);
      assert a[i + 1..] == input[i + 1..] by {
        assert input[i..][1..] == input[i + 1..];
      }
      i := i + 1;
    }
    assert a[..] == a[..a.Length] && input == input[..a.Length];
  }
}
