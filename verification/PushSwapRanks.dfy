/** Ranks of pairwise distinct numbers: 1 for the smallest, n for the largest. */
module Ranks {
  import opened Basics
  import opened Instructions

  function Smaller(s: seq<int>, x: int): set<int> {
    set i | 0 <= i < |s| && s[i] < x
  }

  function Rank(s: seq<int>, x: int): (r: int)
    ensures r >= 1
  {
    1 + |Smaller(s, x)|
  }

  ghost function Positions(n: nat): (r: set<int>)
    ensures forall i :: i in r <==> 0 <= i < n
    ensures |r| == n
  {
    if n == 0 then {} else Positions(n - 1) + {n - 1}
  }

  /** Ranks order the numbers of the list exactly as the numbers themselves do. */
  lemma RankOrder(s: seq<int>, x: int, y: int)
    requires x in s && y in s
    ensures Rank(s, x) < Rank(s, y) <==> x < y
    ensures Rank(s, x) == Rank(s, y) <==> x == y
    ensures 1 <= Rank(s, x) <= |s|
  {
    var i :| 0 <= i < |s| && s[i] == x;
    var j :| 0 <= j < |s| && s[j] == y;
    assert i !in Smaller(s, x) && j !in Smaller(s, y);
    assert x < y ==> i in Smaller(s, y);
    assert y < x ==> j in Smaller(s, x);
    if x <= y {
      SubsetSize(Smaller(s, x), Smaller(s, y));
    } else {
      SubsetSize(Smaller(s, y), Smaller(s, x));
    }
    assert i in Positions(|s|);
    assert Smaller(s, x) < Positions(|s|);
    SubsetSize(Smaller(s, x), Positions(|s|));
  }

  /** The sequence of ranks that a stack of numbers from `all` carries. */
  function RanksOf(all: seq<int>, s: seq<int>): (r: seq<int>)
    ensures |r| == |s| && forall i | 0 <= i < |s| :: r[i] == Rank(all, s[i])
  {
    Mapped(x => Rank(all, x), s)
  }

  function CountUpTo(s: seq<int>, h: int): (c: nat)
    ensures c <= |s|
  {
    if s == [] then 0 else (if s[0] <= h then 1 else 0) + CountUpTo(s[1..], h)
  }

  lemma {:induction false} CountUpToConcat(s: seq<int>, t: seq<int>, h: int)
    ensures CountUpTo(s + t, h) == CountUpTo(s, h) + CountUpTo(t, h)
  {
    if s == [] {
      assert s + t == t;
    } else {
      assert (s + t)[1..] == s[1..] + t;
      CountUpToConcat(s[1..], t, h);
    }
  }

  lemma {:induction false} CountUpToExtremes(s: seq<int>, h: int)
    ensures CountUpTo(s, h) == 0 <==> forall i | 0 <= i < |s| :: s[i] > h
    ensures CountUpTo(s, h) == |s| <==> forall i | 0 <= i < |s| :: s[i] <= h
  {
    if s != [] {
      CountUpToExtremes(s[1..], h);
      assert s == [s[0]] + s[1..];
    }
  }

  ghost function UpTo(s: seq<int>, h: int): set<int> {
    set i | 0 <= i < |s| && s[i] <= h
  }

  lemma {:induction false} CountIsCardinality(s: seq<int>, h: int)
    ensures CountUpTo(s, h) == |UpTo(s, h)|
  {
    if s != [] {
      var front, last := s[..|s| - 1], s[|s| - 1];
      CountIsCardinality(front, h);
      assert s == front + [last];
      CountUpToConcat(front, [last], h);
      assert UpTo(s, h) == UpTo(front, h) + (if last <= h then {|s| - 1} else {});
    }
  }

  /** Distinct positive values not above h are at most h. */
  lemma {:induction false} PigeonHole(p: set<int>, v: seq<int>, lo: int, hi: int)
    requires lo <= hi
    requires forall i | i in p :: 0 <= i < |v| && lo <= v[i] < hi
    requires forall i, j | i in p && j in p && i != j :: v[i] != v[j]
    ensures |p| <= hi - lo
    decreases hi - lo
  {
    if lo == hi {
      assert forall i | i in p :: false;
      assert p == {};
    } else if i :| i in p && v[i] == hi - 1 {
      PigeonHole(p - {i}, v, lo, hi - 1);
    } else {
      PigeonHole(p, v, lo, hi - 1);
    }
  }

  /** Exactly h of the ranks of n distinct numbers are at most h. */
  lemma RanksUpTo(all: seq<int>, h: nat)
    requires NoDup(all) && h <= |all|
    ensures CountUpTo(RanksOf(all, all), h) == h
  {
    var v := RanksOf(all, all);
    forall i, j | 0 <= i < |v| && 0 <= j < |v| && i != j
      ensures v[i] != v[j] && 1 <= v[i] <= |v|
    {
      assert all[i] != all[j];
      RankOrder(all, all[i], all[j]);
    }
    forall i | 0 <= i < |v| ensures 1 <= v[i] <= |v| {
      RankOrder(all, all[i], all[i]);
    }
    var low := UpTo(v, h);
    var high := Positions(|v|) - low;
    PigeonHole(low, v, 1, h + 1);
    PigeonHole(high, v, h + 1, |v| + 1);
    assert Positions(|v|) == low + high;
    CountIsCardinality(v, h);
  }

  /** A strictly ascending sequence. */
  ghost predicate Ascending(s: seq<int>) {
    forall i, j | 0 <= i < j < |s| :: s[i] < s[j]
  }

  ghost predicate NonDescending(s: seq<int>) {
    forall i, j | 0 <= i < j < |s| :: s[i] <= s[j]
  }

  lemma DistinctAscending(s: seq<int>)
    requires NoDup(s)
    ensures NonDescending(s) <==> Ascending(s)
  {
  }

  lemma RanksDistinguish(all: seq<int>, s: seq<int>)
    requires NoDup(RanksOf(all, s))
    ensures NoDup(s)
  {
    forall i, j | 0 <= i < j < |s| ensures s[i] != s[j] {
      assert RanksOf(all, s)[i] != RanksOf(all, s)[j];
    }
  }

  /** Ascending ranks mean ascending numbers. */
  lemma AscendingRanks(all: seq<int>, s: seq<int>)
    requires forall x | x in s :: x in all
    ensures Ascending(RanksOf(all, s)) <==> Ascending(s)
  {
    var v := RanksOf(all, s);
    forall i, j | 0 <= i < j < |s| ensures v[i] < v[j] <==> s[i] < s[j] {
      RankOrder(all, s[i], s[j]);
    }
  }
}

/** Rotations of ascending sequences, and where an insertion keeps them so. */
module CyclicOrder {
  import opened Instructions
  import opened Ranks

  /** Read cyclically from position m, the sequence ascends. */
  ghost predicate AscendingFrom(s: seq<int>, m: nat) {
    && m <= |s|
    && (forall i, j | 0 <= i < j < |s| && (j < m || m <= i) :: s[i] < s[j])
    && (forall i, j | 0 <= i < m <= j < |s| :: s[j] < s[i])
  }

  ghost predicate CyclicAscending(s: seq<int>) {
    exists m: nat :: AscendingFrom(s, m)
  }

  /** The definition by indices is the one by rotation. */
  lemma CyclicIsRotation(s: seq<int>)
    ensures CyclicAscending(s) <==> exists m: nat :: m <= |s| && Ascending(RotL(s, m))
  {
    if CyclicAscending(s) {
      var m: nat :| AscendingFrom(s, m);
      assert Ascending(RotL(s, m));
    }
    if m: nat :| m <= |s| && Ascending(RotL(s, m)) {
      var r := RotL(s, m);
      assert forall i | 0 <= i < m :: s[i] == r[i + |s| - m];
      assert forall i | m <= i < |s| :: s[i] == r[i - m];
      assert AscendingFrom(s, m);
    }
  }

  lemma RotationKeeps(s: seq<int>, m: nat, k: nat)
    requires AscendingFrom(s, m) && k <= |s|
    ensures AscendingFrom(RotL(s, k), if k <= m then m - k else m - k + |s|)
  {
  }

  /** Position t holds the cyclic successor of x: the least element above x or, when x is
      above them all, the least element. */
  ghost predicate IsTarget(s: seq<int>, x: int, t: int) {
    && 0 <= t < |s|
    && if exists i :: 0 <= i < |s| && s[i] > x
       then s[t] > x && forall i | 0 <= i < |s| && s[i] > x :: s[t] <= s[i]
       else forall i | 0 <= i < |s| :: s[t] <= s[i]
  }

  /** Rotating the target to the top and putting x before it keeps the cyclic order; the
      target is the only position for which it does. */
  lemma InsertionPoint(s: seq<int>, x: int, t: int)
    requires CyclicAscending(s) && x !in s && 0 <= t < |s|
    ensures CyclicAscending([x] + RotL(s, t)) <==> IsTarget(s, x, t)
  {
    var m: nat :| AscendingFrom(s, m);
    RotationKeeps(s, m, t);
    TargetRotates(s, x, t);
    var k: nat :| AscendingFrom(RotL(s, t), k);
    if IsTarget(s, x, t) {
      TargetInserts(RotL(s, t), x, k);
    }
    if CyclicAscending([x] + RotL(s, t)) {
      InsertedIsTarget(RotL(s, t), x, k);
    }
  }

  lemma TargetRotates(s: seq<int>, x: int, t: int)
    requires 0 <= t < |s|
    ensures IsTarget(s, x, t) <==> IsTarget(RotL(s, t), x, 0)
  {
    var r := RotL(s, t);
    assert r[0] == s[t];
    assert forall i | 0 <= i < |s| :: s[i] == r[if t <= i then i - t else i - t + |s|];
  }

  lemma TargetInserts(r: seq<int>, x: int, k: nat)
    requires AscendingFrom(r, k) && IsTarget(r, x, 0) && x !in r
    ensures CyclicAscending([x] + r)
  {
    var e := [x] + r;
    if r[0] < x {
      assert AscendingFrom(e, 1);
    } else if k == 0 || k == |r| {
      assert AscendingFrom(e, 0);
    } else {
      assert forall i | k <= i < |r| :: r[i] < r[0];
      assert AscendingFrom(e, k + 1);
    }
  }

  lemma InsertedIsTarget(r: seq<int>, x: int, k: nat)
    requires AscendingFrom(r, k) && CyclicAscending([x] + r) && x !in r && r != []
    ensures IsTarget(r, x, 0)
  {
    var e := [x] + r;
    var n: nat :| AscendingFrom(e, n);
    forall i | 0 <= i < |r|
      ensures r[i] > x <==> n == 0 || i + 1 < n
      ensures r[0] <= r[i] || (r[i] < x < r[0])
    {
      assert e[0] == x && e[i + 1] == r[i] && e[1] == r[0];
    }
  }

  ghost predicate IsLeast(s: seq<int>, t: int) {
    0 <= t < |s| && forall i | 0 <= i < |s| :: s[t] <= s[i]
  }

  /** Rotating the least element to the top sorts a cyclically ascending sequence. */
  lemma LeastToTop(s: seq<int>, t: int)
    requires CyclicAscending(s) && IsLeast(s, t)
    ensures Ascending(RotL(s, t))
  {
    var m: nat :| AscendingFrom(s, m);
    assert s[t] <= s[0] && (m < |s| ==> s[t] <= s[m]);
    RotationKeeps(s, m, t);
  }

  // ------------------------------------------------------------------------ costs

  /** The signed cost of bringing position `pos` of `size` to the top. */
  function SignedCost(pos: int, size: int): int {
    if pos > size / 2 then -(size - pos) else pos
  }

  function Abs(x: int): nat {
    if x < 0 then -x else x
  }

  function Min(x: int, y: int): int {
    if x < y then x else y
  }

  /** The cost takes the shorter way round and never more than half the stack, and applying
      that many signed rotations is the left rotation by `pos`. */
  lemma CostIsShortest<T>(s: seq<T>, pos: nat)
    requires pos < |s|
    ensures Abs(SignedCost(pos, |s|)) == Min(pos, |s| - pos) <= |s| / 2
    ensures Admissible(s, SignedCost(pos, |s|))
    ensures SignedRot(s, SignedCost(pos, |s|)) == RotL(s, pos)
  {
  }
}
