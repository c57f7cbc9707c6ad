/** How the two analyzers relate. The older analyzer's visitors give what the current
    analyzer's collectors give when conditions are ignored, except that its array entries go
    by the base name of the array; and the two unrolls build the same boxes, so they measure
    the same working-set size, although only the current one keeps the merged counts. */
module Versions {
  import opened Wrappers
  import opened Program
  import opened Box
  import opened Conditions
  import opened Counters
  import opened Unroll
  import C = PostCollectors
  import V = PostNewVisitors
  import P = PostAnalyze

  // Collectors and visitors

  /** With conditions ignored, every flops event counts its own operations in both analyzers. */
  lemma FlopsAgree(chk: CondsChecker, e: Event, conds: seq<Condition>)
    requires chk.ignoreConds
    ensures C.FlopsCollected(chk, e, conds) == Ok(V.FlopsVisited(e))
  {
    if e.FlopsEvent? {
      var t := TallyOf(e.flops);
      assert t.Scale(1.0) == t;
    }
  }

  /** With conditions ignored, both analyzers give the same state variables: the pointer
      entry under the base name and one element entry per loop-invariant access. */
  lemma StateVarsAgree(chk: CondsChecker, e: Event, conds: seq<Condition>)
    requires chk.ignoreConds
    ensures C.StateVarsCollected(chk, e, conds) == Ok(V.StateVarsVisited(e))
  {
    if e.ArrayEvent? {
      var states := StateAccesses(e.arr.accesses);
      assert C.PointerCollected(e.arr, 1.0) == V.PointerVisited(e.arr);
      assert C.ElementsCollected(e.arr, states, 1.0) == V.ElementsVisited(e.arr, states);
    }
  }

  /** With conditions ignored, the array entries carry the same type and counts; the older
      analyzer names them by the part of the array name before its first '.'. */
  lemma ArrayVarsDifferInName(chk: CondsChecker, e: Event, conds: seq<Condition>)
    requires chk.ignoreConds
    ensures var c, v := C.ArrayVarsCollected(chk, e, conds), V.ArrayVarsVisited(e);
      && c.Ok? && |c.value| == |v|
      && forall k :: 0 <= k < |v| ==> v[k].name == BaseName(e.arr.name) && c.value[k] == v[k].(name := e.arr.name)
  {
  }

  /** With conditions ignored, both analyzers give an array the same traffic region. */
  lemma TrafficAgrees(chk: CondsChecker, e: Event, conds: seq<Condition>)
    requires chk.ignoreConds
    ensures C.TrafficCollected(chk, e, conds) == Ok(V.TrafficVisited(e))
  {
  }

  /** With conditions ignored, both analyzers give an array a working set over the same
      accesses. */
  lemma WorkingSetsAgree(chk: CondsChecker, e: Event, conds: seq<Condition>, machine: P.Machine)
    requires chk.ignoreConds
    requires C.LiveStreamed(chk, e, conds) ==> e.arr.elemType + "_byte_n" in machine
    ensures var c, v := C.WorkingSetsCollected(chk, e, conds, machine), V.WorkingSetsVisited(e);
      && c.Ok? && |c.value| == |v|
      && forall k :: 0 <= k < |v| ==> c.value[k].accesses == v[k]
  {
  }

  // The two unrolls

  /** Lists whose accesses agree index by index have the same union of boxes. */
  lemma {:induction false} SameIndexesSameUnion(a: seq<Access>, b: seq<Access>)
    requires |a| == |b| && forall k :: 0 <= k < |a| ==> a[k].index == b[k].index
    ensures UnionPoints(a) == UnionPoints(b)
  {
    if a != [] {
      SameIndexesSameUnion(a[..|a| - 1], b[..|b| - 1]);
      assert MakeBox(a[|a| - 1]) == MakeBox(b[|b| - 1]);
    }
  }

  /** The unroll with and without counts builds the same accesses apart from their counts. */
  lemma UnrolledSameIndexes(accs: seq<Access>, v: string, lb: int, ub: int)
    requires AllWellFormed(accs) && v != ""
    ensures var t, f := Unrolled(accs, v, lb, ub, true), Unrolled(accs, v, lb, ub, false);
      && |t| == |f|
      && forall k :: 0 <= k < |t| ==> t[k].index == f[k].index && t[k].loopvars == f[k].loopvars
  {
    var s := Sort(accs, v);
    var t, f := MergeAll(s.keys, s.buckets, lb, ub, true), MergeAll(s.keys, s.buckets, lb, ub, false);
    forall k | 0 <= k < |s.keys| ensures t[k].index == f[k].index && t[k].loopvars == f[k].loopvars {
      MergeAllAt(s.keys, s.buckets, lb, ub, true, k);
      MergeAllAt(s.keys, s.buckets, lb, ub, false, k);
    }
  }

  /** Both analyzers measure the same unrolled working set: the same points, so the same size. */
  lemma UnrolledSameSize(accs: seq<Access>, v: string, lb: int, ub: int)
    requires AllWellFormed(accs) && v != "" && |accs| > 0
    ensures UnionPoints(Unrolled(accs, v, lb, ub, true)) == UnionPoints(Unrolled(accs, v, lb, ub, false))
    ensures AccessSize(Unrolled(accs, v, lb, ub, true)) == AccessSize(Unrolled(accs, v, lb, ub, false))
  {
    UnrolledSameIndexes(accs, v, lb, ub);
    SameIndexesSameUnion(Unrolled(accs, v, lb, ub, true), Unrolled(accs, v, lb, ub, false));
  }
}
