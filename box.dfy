/** The box primitive behind `accessSize`: every access is an axis-aligned box of integer
    lattice points, and the size of a list of accesses is the number of distinct points in the
    union of their boxes. Points are explicit finite sets of coordinate sequences. */
module Box {
  import opened Program

  /** A half-open interval [lo, hiExcl), the form in which bounds are handed to the box library. */
  datatype Interval = Interval(lo: int, hiExcl: int)

  /** A point x becomes [x, x+1); a range keeps its lower bound and gets 1 added to its
      inclusive upper bound. */
  function MakeInterval(d: Dim): Interval {
    match d
    case Point(x) => Interval(x, x + 1)
    case Range(lo, hi) => Interval(lo, hi + 1)
  }

  function MakeBox(acc: Access): (box: seq<Interval>)
    ensures |box| == |acc.index|
    ensures forall k :: 0 <= k < |box| ==> box[k] == MakeInterval(acc.index[k])
  {
    seq(|acc.index|, k requires 0 <= k < |acc.index| => MakeInterval(acc.index[k]))
  }

  function IntervalPoints(iv: Interval): set<int>
    decreases iv.hiExcl - iv.lo
  {
    if iv.hiExcl <= iv.lo then {} else IntervalPoints(Interval(iv.lo, iv.hiExcl - 1)) + {iv.hiExcl - 1}
  }

  lemma {:induction false} IntervalMembership(iv: Interval, x: int)
    ensures x in IntervalPoints(iv) <==> iv.lo <= x < iv.hiExcl
    decreases iv.hiExcl - iv.lo
  {
    if iv.hiExcl > iv.lo {
      IntervalMembership(Interval(iv.lo, iv.hiExcl - 1), x);
    }
  }

  /** Every point of `ps` with one more leading coordinate taken from `xs`. */
  function Prepend(xs: set<int>, ps: set<seq<int>>): set<seq<int>> {
    set x, p | x in xs && p in ps :: [x] + p
  }

  lemma PrependIntro(xs: set<int>, ps: set<seq<int>>, x: int, p: seq<int>)
    requires x in xs && p in ps
    ensures [x] + p in Prepend(xs, ps)
  {
  }

  function BoxPoints(box: seq<Interval>): set<seq<int>>
    decreases |box|
  {
    if box == [] then {[]} else Prepend(IntervalPoints(box[0]), BoxPoints(box[1..]))
  }

  /** The union of the boxes, folded from the left as `reduce(union, boxes)` does. */
  function UnionPoints(accs: seq<Access>): (u: set<seq<int>>)
    ensures forall k :: 0 <= k < |accs| ==> BoxPoints(MakeBox(accs[k])) <= u
  {
    if accs == [] then {}
    else UnionPoints(accs[..|accs| - 1]) + BoxPoints(MakeBox(accs[|accs| - 1]))
  }

  /** A subset has no more elements than its superset. */
  lemma SubsetCard<T>(a: set<T>, b: set<T>)
    requires a <= b
    ensures |a| <= |b|
  {
    assert b == a + (b - a);
  }

  /** accessSize, the number of distinct points the accesses touch: at least as many as any
      one access touches. An empty list has no box to start the union from, so it is
      excluded. */
  function AccessSize(accs: seq<Access>): (n: nat)
    requires |accs| > 0
    ensures forall k :: 0 <= k < |accs| ==> |BoxPoints(MakeBox(accs[k]))| <= n
  {
    var u := UnionPoints(accs);
    assert forall k :: 0 <= k < |accs| ==> |BoxPoints(MakeBox(accs[k]))| <= |u| by {
      forall k | 0 <= k < |accs| ensures |BoxPoints(MakeBox(accs[k]))| <= |u| {
        SubsetCard(BoxPoints(MakeBox(accs[k])), u);
      }
    }
    |u|
  }

  /** The points an access means: y lies in a dimension when it equals the point, or lies
      between the range's bounds, both included. */
  predicate InDim(d: Dim, y: int) {
    match d
    case Point(x) => y == x
    case Range(lo, hi) => lo <= y <= hi
  }

  predicate Touches(acc: Access, p: seq<int>) {
    |p| == |acc.index| && forall k :: 0 <= k < |p| ==> InDim(acc.index[k], p[k])
  }

  lemma {:induction false} BoxPointsMembership(box: seq<Interval>, p: seq<int>)
    ensures p in BoxPoints(box) <==>
            |p| == |box| && forall k :: 0 <= k < |p| ==> p[k] in IntervalPoints(box[k])
    decreases |box|
  {
    if box != [] {
      if p in BoxPoints(box) {
        var x, q :| x in IntervalPoints(box[0]) && q in BoxPoints(box[1..]) && p == [x] + q;
        BoxPointsMembership(box[1..], q);
        forall k | 0 <= k < |p| ensures p[k] in IntervalPoints(box[k]) {
          if k > 0 { assert p[k] == q[k - 1]; }
        }
      }
      if |p| == |box| && forall k :: 0 <= k < |p| ==> p[k] in IntervalPoints(box[k]) {
        BoxPointsMembership(box[1..], p[1..]);
        forall k | 0 <= k < |p[1..]| ensures p[1..][k] in IntervalPoints(box[1..][k]) {
          assert p[1..][k] == p[k + 1];
        }
        assert p[0] in IntervalPoints(box[0]);
        assert p[1..] in BoxPoints(box[1..]);
        PrependIntro(IntervalPoints(box[0]), BoxPoints(box[1..]), p[0], p[1..]);
        assert p == [p[0]] + p[1..];
      }
    }
  }

  /** The box built from an access holds exactly the points the access touches. */
  lemma {:induction false} AccessPoints(acc: Access, p: seq<int>)
    ensures p in BoxPoints(MakeBox(acc)) <==> Touches(acc, p)
  {
    BoxPointsMembership(MakeBox(acc), p);
    forall k | 0 <= k < |p| && k < |acc.index|
      ensures p[k] in IntervalPoints(MakeBox(acc)[k]) <==> InDim(acc.index[k], p[k])
    {
      IntervalMembership(MakeInterval(acc.index[k]), p[k]);
    }
  }

  /** accessSize counts exactly the points touched by at least one access of the list. */
  lemma {:induction false} UnionMembership(accs: seq<Access>, p: seq<int>)
    ensures p in UnionPoints(accs) <==> exists k :: 0 <= k < |accs| && Touches(accs[k], p)
    decreases |accs|
  {
    if accs != [] {
      var init := accs[..|accs| - 1];
      UnionMembership(init, p);
      AccessPoints(accs[|accs| - 1], p);
      if exists k :: 0 <= k < |init| && Touches(init[k], p) {
        var k :| 0 <= k < |init| && Touches(init[k], p);
        assert accs[k] == init[k];
      }
      if exists k :: 0 <= k < |accs| && Touches(accs[k], p) {
        var k :| 0 <= k < |accs| && Touches(accs[k], p);
        if k < |accs| - 1 { assert init[k] == accs[k]; }
      }
    }
  }

  /** Two lists holding the same accesses, in any order and with any repetition, have the
      same union. */
  lemma SameAccessesSameUnion(a: seq<Access>, b: seq<Access>)
    requires forall acc :: acc in a <==> acc in b
    ensures UnionPoints(a) == UnionPoints(b)
  {
    forall p ensures p in UnionPoints(a) <==> p in UnionPoints(b) {
      UnionMembership(a, p);
      UnionMembership(b, p);
      if exists k :: 0 <= k < |a| && Touches(a[k], p) {
        var k :| 0 <= k < |a| && Touches(a[k], p);
        assert a[k] in b;
      }
      if exists k :: 0 <= k < |b| && Touches(b[k], p) {
        var k :| 0 <= k < |b| && Touches(b[k], p);
        assert b[k] in a;
      }
    }
  }

  lemma {:induction false} UnionAppend(a: seq<Access>, b: seq<Access>)
    ensures UnionPoints(a + b) == UnionPoints(a) + UnionPoints(b)
    decreases |b|
  {
    if b == [] {
      assert a + b == a;
    } else {
      var b' := b[..|b| - 1];
      UnionAppend(a, b');
      assert (a + b)[..|a + b| - 1] == a + b';
      assert (a + b)[|a + b| - 1] == b[|b| - 1];
    }
  }

  /** Unioning a list of boxes with an identical copy of itself changes nothing. */
  lemma DuplicateIdempotent(accs: seq<Access>)
    requires |accs| > 0
    ensures AccessSize(accs + accs) == AccessSize(accs)
  {
    UnionAppend(accs, accs);
    assert UnionPoints(accs + accs) == UnionPoints(accs);
  }

  // Cardinality of boxes

  function Width(iv: Interval): nat {
    if iv.hiExcl >= iv.lo then iv.hiExcl - iv.lo else 0
  }

  /** The product of the widths of a box's intervals. */
  function Volume(box: seq<Interval>): nat {
    if box == [] then 1 else Width(box[0]) * Volume(box[1..])
  }

  /** The number of points of one access taken on its own. */
  function BoxSize(acc: Access): nat {
    Volume(MakeBox(acc))
  }

  function SumBoxSizes(accs: seq<Access>): nat {
    if accs == [] then 0 else SumBoxSizes(accs[..|accs| - 1]) + BoxSize(accs[|accs| - 1])
  }

  lemma {:induction false} IntervalCard(iv: Interval)
    ensures |IntervalPoints(iv)| == Width(iv)
    decreases iv.hiExcl - iv.lo
  {
    if iv.hiExcl > iv.lo {
      var smaller := Interval(iv.lo, iv.hiExcl - 1);
      IntervalCard(smaller);
      IntervalMembership(smaller, iv.hiExcl - 1);
    }
  }

  lemma PrependHeads(xs: set<int>, ps: set<seq<int>>, s: seq<int>)
    requires s in Prepend(xs, ps)
    ensures |s| > 0 && s[0] in xs && s[1..] in ps
  {
    var y, q :| y in xs && q in ps && s == [y] + q;
    assert s[1..] == q;
  }

  lemma {:induction false} PrependOneCard(x: int, ps: set<seq<int>>)
    ensures |Prepend({x}, ps)| == |ps|
    decreases |ps|
  {
    if ps == {} {
      assert Prepend({x}, ps) == {};
    } else {
      var p :| p in ps;
      var rest := ps - {p};
      PrependOneCard(x, rest);
      forall s ensures s in Prepend({x}, ps) <==> s in Prepend({x}, rest) + {[x] + p} {
        if s in Prepend({x}, ps) {
          PrependHeads({x}, ps, s);
          assert s == [x] + s[1..];
          if s[1..] != p { PrependIntro({x}, rest, x, s[1..]); }
        }
        if s in Prepend({x}, rest) {
          PrependHeads({x}, rest, s);
          assert s == [x] + s[1..];
          PrependIntro({x}, ps, x, s[1..]);
        }
        if s == [x] + p { PrependIntro({x}, ps, x, p); }
      }
      assert [x] + p !in Prepend({x}, rest) by {
        if [x] + p in Prepend({x}, rest) {
          PrependHeads({x}, rest, [x] + p);
        }
      }
      assert Prepend({x}, ps) == Prepend({x}, rest) + {[x] + p};
    }
  }

  lemma PrependSplit(rest: set<int>, x: int, ps: set<seq<int>>)
    requires x !in rest
    ensures Prepend(rest + {x}, ps) == Prepend(rest, ps) + Prepend({x}, ps)
    ensures Prepend(rest, ps) * Prepend({x}, ps) == {}
  {
    var xs, left, right := rest + {x}, Prepend(rest, ps), Prepend({x}, ps);
    forall s ensures s in Prepend(xs, ps) <==> s in left + right {
      if s in Prepend(xs, ps) {
        PrependHeads(xs, ps, s);
        assert s == [s[0]] + s[1..];
        if s[0] == x { PrependIntro({x}, ps, x, s[1..]); } else { PrependIntro(rest, ps, s[0], s[1..]); }
      }
      if s in left {
        PrependHeads(rest, ps, s);
        assert s == [s[0]] + s[1..];
        PrependIntro(xs, ps, s[0], s[1..]);
      }
      if s in right {
        PrependHeads({x}, ps, s);
        assert s == [s[0]] + s[1..];
        PrependIntro(xs, ps, s[0], s[1..]);
      }
    }
    forall s | s in left ensures s !in right {
      PrependHeads(rest, ps, s);
    }
  }

  /** One more row of `p` points. */
  lemma MulSucc(w: nat, w': nat, p: nat)
    requires w' == w + 1
    ensures w' * p == w * p + p
  {
  }

  /** Prepending the coordinates of an interval multiplies the number of points by its width. */
  lemma {:induction false} PrependCard(iv: Interval, ps: set<seq<int>>)
    ensures |Prepend(IntervalPoints(iv), ps)| == Width(iv) * |ps|
    decreases iv.hiExcl - iv.lo
  {
    if iv.hiExcl <= iv.lo {
      assert Prepend(IntervalPoints(iv), ps) == {};
    } else {
      var x := iv.hiExcl - 1;
      var smaller := Interval(iv.lo, x);
      PrependCard(smaller, ps);
      IntervalMembership(smaller, x);
      assert IntervalPoints(iv) == IntervalPoints(smaller) + {x};
      PrependCardStep(IntervalPoints(smaller), x, ps);
      MulSucc(Width(smaller), Width(iv), |ps|);
    }
  }

  /** One more leading coordinate adds one copy of `ps`. */
  lemma PrependCardStep(rest: set<int>, x: int, ps: set<seq<int>>)
    requires x !in rest
    ensures |Prepend(rest + {x}, ps)| == |Prepend(rest, ps)| + |ps|
  {
    PrependOneCard(x, ps);
    PrependSplit(rest, x, ps);
    var left, right := Prepend(rest, ps), Prepend({x}, ps);
    assert |left + right| == |left| + |right|;
  }

  /** A box holds the product of its interval widths many points. */
  lemma {:induction false} BoxCardinality(box: seq<Interval>)
    ensures |BoxPoints(box)| == Volume(box)
    decreases |box|
  {
    if box != [] {
      BoxCardinality(box[1..]);
      IntervalCard(box[0]);
      PrependCard(box[0], BoxPoints(box[1..]));
    }
  }

  /** Overlap is never double counted: the union is at most the sum of the box sizes. */
  lemma {:induction false} AccessSizeUnionBound(accs: seq<Access>)
    requires |accs| > 0
    ensures AccessSize(accs) <= SumBoxSizes(accs)
  {
    UnionBound(accs);
  }

  lemma {:induction false} UnionBound(accs: seq<Access>)
    ensures |UnionPoints(accs)| <= SumBoxSizes(accs)
    decreases |accs|
  {
    if accs != [] {
      UnionBound(accs[..|accs| - 1]);
      BoxCardinality(MakeBox(accs[|accs| - 1]));
    }
  }

  /** A single access on its own has the product of its dimension widths as its size. */
  lemma SingleAccessSize(acc: Access)
    ensures AccessSize([acc]) == BoxSize(acc)
  {
    assert [acc][..0] == [];
    assert UnionPoints([acc]) == {} + BoxPoints(MakeBox(acc));
    BoxCardinality(MakeBox(acc));
  }

  /** The 1-D ranges [a, b] and [b, c] share the point b, which is counted once. */
  lemma OverlapCountedOnce(a: int, b: int, c: int, r: nat, w: nat)
    requires a <= b <= c
    ensures AccessSize([Access([Range(a, b)], [""], r, w), Access([Range(b, c)], [""], r, w)]) == c - a + 1
  {
    var accs := [Access([Range(a, b)], [""], r, w), Access([Range(b, c)], [""], r, w)];
    var whole := [Interval(a, c + 1)];
    forall p ensures p in UnionPoints(accs) <==> p in BoxPoints(whole) {
      UnionMembership(accs, p);
      BoxPointsMembership(whole, p);
      if |p| == 1 {
        IntervalMembership(whole[0], p[0]);
      }
      if |p| == 1 && a <= p[0] <= c {
        if p[0] <= b { assert Touches(accs[0], p); } else { assert Touches(accs[1], p); }
      }
    }
    assert UnionPoints(accs) == BoxPoints(whole);
    BoxCardinality(whole);
  }
}
