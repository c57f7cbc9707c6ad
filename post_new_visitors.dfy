/** The visitors of the older analyzer (tools/post-new/analyze.py): for one leaf event, the
    metric objects it contributes. Unlike the current analyzer's collectors they take no
    condition chain into account: every event counts in full. */
module PostNewVisitors {
  import opened Wrappers
  import opened Program
  import opened Counters
  import opened Seqs
  import P = PostAnalyze
  import N = PostNewAnalyze

  // The visited values

  /** The flop counts an event contributes: one entry for a flops event. */
  function FlopsVisited(e: Event): (r: seq<FlopTally>)
    ensures |r| <= 1 && (|r| == 1 <==> e.FlopsEvent?)
  {
    if e.FlopsEvent? then [TallyOf(e.flops)] else []
  }

  /** The base pointer entry of an array: read once for every read and every write. */
  function PointerVisited(arr: ArrayRef): Named {
    Named(BaseName(arr.name), arr.elemType + " *", RWTally(TotalTraffic(arr.accesses) as real, 0.0))
  }

  /** The entry of one loop-invariant access: named by the array name and its index tuple. */
  function ElementVisited(arr: ArrayRef, acc: Access): Named {
    Named(arr.name + IndexString(acc.index), arr.elemType, RWTally(acc.readCount as real, acc.writeCount as real))
  }

  function ElementsVisited(arr: ArrayRef, accs: seq<Access>): (r: seq<Named>)
    ensures |r| == |accs|
  {
    seq(|accs|, k requires 0 <= k < |accs| => ElementVisited(arr, accs[k]))
  }

  /** The state variables an event contributes: a scalar itself; an array its base pointer
      followed by one entry per loop-invariant access. */
  function StateVarsVisited(e: Event): (r: seq<Named>)
    ensures e.FlopsEvent? ==> r == []
    ensures e.ScalarEvent? ==> |r| == 1
    ensures e.ArrayEvent? ==> |r| == 1 + |StateAccesses(e.arr.accesses)|
  {
    match e
    case FlopsEvent(_) => []
    case ScalarEvent(sv) => [Named(sv.name, sv.elemType, RWTally(sv.readCount as real, sv.writeCount as real))]
    case ArrayEvent(arr) => [PointerVisited(arr)] + ElementsVisited(arr, StateAccesses(arr.accesses))
  }

  /** The array variables an event contributes: one entry, under the array's base name, for
      an array with streamed accesses. */
  function ArrayVarsVisited(e: Event): (r: seq<Named>)
    ensures |r| <= 1 && (|r| == 1 <==> e.ArrayEvent? && !OnlyStateVars(e.arr))
  {
    if e.ArrayEvent? && !OnlyStateVars(e.arr) then
      [Named(BaseName(e.arr.name), e.arr.elemType,
             RWTally(StreamedReads(e.arr.accesses) as real, StreamedWrites(e.arr.accesses) as real))]
    else []
  }

  /** The working sets an event contributes: the streamed accesses of an array, once. */
  function WorkingSetsVisited(e: Event): (r: seq<seq<Access>>)
    ensures |r| <= 1 && (|r| == 1 <==> e.ArrayEvent? && !OnlyStateVars(e.arr))
    ensures N.AllNonEmptyWs(r)
  {
    if e.ArrayEvent? && !OnlyStateVars(e.arr) then
      [NonStateAccesses(e.arr.accesses)]
    else []
  }

  /** The traffic an event contributes: one region over the streamed accesses of an array,
      counted once. */
  function TrafficVisited(e: Event): (r: seq<P.RegionVal>)
    ensures |r| <= 1 && (|r| == 1 <==> e.ArrayEvent? && !OnlyStateVars(e.arr))
  {
    if e.ArrayEvent? && !OnlyStateVars(e.arr) then
      [N.Region(NonStateAccesses(e.arr.accesses), 1.0)]
    else []
  }

  // Properties of the visitors

  /** No access of an array is counted twice: the element entries and the array entry
      together carry every read and write, and the pointer is read once for each. */
  lemma VisitedTalliesSplit(arr: ArrayRef)
    requires !OnlyStateVars(arr)
    ensures var svs, avs := StateVarsVisited(ArrayEvent(arr)), ArrayVarsVisited(ArrayEvent(arr));
      && |svs| >= 1 && |avs| == 1
      && SumNamedReads(svs[1..]) + avs[0].tally.readCount == SumReads(arr.accesses) as real
      && SumNamedWrites(svs[1..]) + avs[0].tally.writeCount == SumWrites(arr.accesses) as real
      && svs[0].tally.readCount == (SumReads(arr.accesses) + SumWrites(arr.accesses)) as real
  {
    var svs := StateVarsVisited(ArrayEvent(arr));
    var states := StateAccesses(arr.accesses);
    assert svs[1..] == ElementsVisited(arr, states);
    ElementsVisitedSum(arr, states);
    StateAndStreamedPartition(arr.accesses);
    PointerTrafficSplits(arr.accesses);
  }

  /** The element entries carry the reads and writes of their accesses. */
  lemma {:induction false} ElementsVisitedSum(arr: ArrayRef, accs: seq<Access>)
    ensures SumNamedReads(ElementsVisited(arr, accs)) == SumReads(accs) as real
    ensures SumNamedWrites(ElementsVisited(arr, accs)) == SumWrites(accs) as real
  {
    if accs != [] {
      var init := accs[..|accs| - 1];
      ElementsVisitedSum(arr, init);
      var es := ElementsVisited(arr, accs);
      assert es[..|es| - 1] == ElementsVisited(arr, init);
    }
  }

  // The visitors, building the metric objects

  /** The flop-count visitor. */
  method VisitFlops(e: Event) returns (r: seq<FlopCount>)
    ensures FlopValues(r) == FlopsVisited(e)
  {
    if e.FlopsEvent? {
      var f := new FlopCount.FromFlops(e.flops);
      r := [f];
    } else {
      r := [];
    }
  }

  /** The state-variable visitor: the pointer entry first, then the elements in order. */
  method VisitStateVars(e: Event) returns (r: seq<StateVar>)
    ensures StateVarValues(r) == StateVarsVisited(e)
  {
    if e.ScalarEvent? {
      var sv := new StateVar.FromScalar(e.scalar);
      r := [sv];
    } else if e.ArrayEvent? {
      var ptr := new StateVar.Pointer(e.arr);
      assert StateVarValues([ptr]) == [PointerVisited(e.arr)];
      r := VisitElements(e.arr, [ptr]);
    } else {
      r := [];
    }
  }

  /** The entries of the loop-invariant accesses, appended one access at a time. */
  method VisitElements(arr: ArrayRef, svs: seq<StateVar>) returns (out: seq<StateVar>)
    ensures StateVarValues(out) == StateVarValues(svs) + ElementsVisited(arr, StateAccesses(arr.accesses))
  {
    var states := StateAccesses(arr.accesses);
    ghost var prefix, elems := StateVarValues(svs), ElementsVisited(arr, states);
    out := svs;
    for k := 0 to |states|
      invariant StateVarValues(out) == prefix + elems[..k]
    {
      var el := new StateVar.Element(arr, states[k]);
      StateVarValuesSnoc(out, prefix, elems[..k], el);
      PrefixSnoc(elems, k);
      out := out + [el];
    }
    PrefixFull(elems);
  }

  /** The array-variable visitor. */
  method VisitArrayVars(e: Event) returns (r: seq<ArrayVar>)
    ensures ArrayVarValues(r) == ArrayVarsVisited(e)
  {
    if e.ArrayEvent? && !OnlyStateVars(e.arr) {
      var av := new ArrayVar.FromArrayBaseName(e.arr);
      r := [av];
    } else {
      r := [];
    }
  }

  /** The working-set visitor: a fresh working set counted once, with no size remembered. */
  method VisitWorkingSets(e: Event) returns (r: seq<N.WorkingSet>)
    requires e.ArrayEvent? ==> AllWellFormed(e.arr.accesses)
    ensures N.WsAccesses(r) == WorkingSetsVisited(e)
    ensures forall k :: 0 <= k < |r| ==> r[k].Valid() && r[k].count == 1.0 && r[k].sizeMemo == None
  {
    if e.ArrayEvent? && !OnlyStateVars(e.arr) {
      var w := new N.WorkingSet.FromArray(e.arr);
      r := [w];
    } else {
      r := [];
    }
  }

  /** The traffic visitor, given the cache size of the machine. The event's array has its
      accesses resolved by the problem-size parameters; `blockArr` is the same array resolved
      by the block parameters, which is what the working set is built from. */
  method VisitTraffic(e: Event, blockArr: ArrayRef, cache: real) returns (r: seq<N.Traffic>)
    requires e.ArrayEvent? ==> && AllWellFormed(e.arr.accesses) && AllWellFormed(blockArr.accesses)
                               && blockArr.name == e.arr.name && blockArr.elemType == e.arr.elemType
                               && OnlyStateVars(blockArr) == OnlyStateVars(e.arr)
    ensures |r| == |TrafficVisited(e)|
    ensures |r| == 1 ==> && r[0].Valid() && r[0].cacheBytes == cache
                         && r[0].name == e.arr.name && r[0].elemType == e.arr.elemType
                         && r[0].Value() == TrafficVisited(e) && r[0].SharesWs() == [false]
                         && r[0].ws.accesses == NonStateAccesses(blockArr.accesses) && r[0].ws.count == 1.0
  {
    if e.ArrayEvent? && !OnlyStateVars(e.arr) {
      var t := new N.Traffic.FromArray(e.arr, blockArr, cache);
      r := [t];
    } else {
      r := [];
    }
  }
}
