/** The collectors of the current analyzer (tools/post/analyze.py): for one leaf event and the
    chain of conditions guarding it, the metric objects the event contributes, each weighted by
    the probability that the guarded block runs. A block whose probability is not positive
    contributes nothing. */
module PostCollectors {
  import opened Wrappers
  import opened Program
  import opened Box
  import opened Conditions
  import opened Counters
  import opened PostAnalyze
  import opened Seqs

  // The collected values

  /** The flop counts an event contributes: one entry for a flops event in a live block. */
  function FlopsCollected(chk: CondsChecker, e: Event, conds: seq<Condition>): (r: Result<seq<FlopTally>>)
    ensures r.Err? <==> Call(chk, conds).Err?
    ensures r.Ok? ==> |r.value| <= 1 && (|r.value| == 1 <==> e.FlopsEvent? && Call(chk, conds).value > 0.0)
    ensures r.Ok? && |r.value| == 1 ==> ScaledCountsOf(r.value[0], e.flops, Call(chk, conds).value)
  {
    match Call(chk, conds)
    case Err(err) => Err(err)
    case Ok(p) =>
      if e.FlopsEvent? && p > 0.0 then
        ScaledCounts(e.flops, p);
        Ok([TallyOf(e.flops).Scale(p)])
      else Ok([])
  }

  /** Each of the four counts of `t` is the count of `f` times `p`. */
  predicate ScaledCountsOf(t: FlopTally, f: Flops, p: real) {
    && t.adds == f.adds as real * p && t.multiplies == f.multiplies as real * p
    && t.divides == f.divides as real * p && t.specials == f.specials as real * p
  }

  lemma ScaledCounts(f: Flops, p: real)
    ensures ScaledCountsOf(TallyOf(f).Scale(p), f, p)
  {
  }

  /** The base pointer entry of an array, weighted by `p`. */
  function PointerCollected(arr: ArrayRef, p: real): Named {
    Named(BaseName(arr.name), arr.elemType + " *", RWTally(Weighted(TotalTraffic(arr.accesses), p), Weighted(0, p)))
  }

  /** A count weighted by a probability. */
  function Weighted(x: nat, p: real): real {
    x as real * p
  }

  lemma WeightedDistributes(a: nat, b: nat, p: real)
    ensures Weighted(a, p) + Weighted(b, p) == Weighted(a + b, p)
  {
    MulDistributes(a as real, b as real, p);
  }

  /** Scaling a tally of counts weights each count. */
  lemma ScaleIsWeighted(t: RWTally, a: nat, b: nat, p: real)
    requires t == RWTally(a as real, b as real)
    ensures t.Scale(p) == RWTally(Weighted(a, p), Weighted(b, p))
  {
  }

  lemma WeightedSplit(x: real, y: real, a: nat, b: nat, c: nat, p: real)
    requires x == Weighted(a, p) && y == Weighted(b, p) && a + b == c
    ensures x + y == Weighted(c, p)
  {
    WeightedDistributes(a, b, p);
  }

  /** The reads and writes of one loop-invariant access, weighted by `p`. */
  function ElementTally(acc: Access, p: real): RWTally {
    RWTally(Weighted(acc.readCount, p), Weighted(acc.writeCount, p))
  }

  /** The entry of one loop-invariant access: named by the array name and its index tuple. */
  function ElementCollected(arr: ArrayRef, acc: Access, p: real): Named {
    Named(arr.name + IndexString(acc.index), arr.elemType, ElementTally(acc, p))
  }

  /** The element entries of the given loop-invariant accesses, in order. */
  function ElementsCollected(arr: ArrayRef, accs: seq<Access>, p: real): (r: seq<Named>)
    ensures |r| == |accs|
  {
    seq(|accs|, k requires 0 <= k < |accs| => ElementCollected(arr, accs[k], p))
  }

  /** The state variables an event contributes: a scalar itself; an array its base pointer
      followed by one entry per loop-invariant access. */
  function StateVarsCollected(chk: CondsChecker, e: Event, conds: seq<Condition>): (r: Result<seq<Named>>)
    ensures r.Err? <==> Call(chk, conds).Err?
    ensures r.Ok? && !(Call(chk, conds).value > 0.0) ==> r.value == []
    ensures r.Ok? && Call(chk, conds).value > 0.0 && e.ArrayEvent? ==>
              |r.value| == 1 + |StateAccesses(e.arr.accesses)|
  {
    match Call(chk, conds)
    case Err(err) => Err(err)
    case Ok(p) => if p > 0.0 then Ok(StateVarsOf(e, p)) else Ok([])
  }

  /** The state variables of an event in a block that runs with probability `p`. */
  function StateVarsOf(e: Event, p: real): (r: seq<Named>)
    ensures e.ArrayEvent? ==> |r| == 1 + |StateAccesses(e.arr.accesses)|
  {
    match e
    case FlopsEvent(_) => []
    case ScalarEvent(sv) => [Named(sv.name, sv.elemType, RWTally(Weighted(sv.readCount, p), Weighted(sv.writeCount, p)))]
    case ArrayEvent(arr) => [PointerCollected(arr, p)] + ElementsCollected(arr, StateAccesses(arr.accesses), p)
  }

  /** The array variables an event contributes: one entry for an array with streamed accesses. */
  function ArrayVarsCollected(chk: CondsChecker, e: Event, conds: seq<Condition>): (r: Result<seq<Named>>)
    ensures r.Err? <==> Call(chk, conds).Err?
    ensures r.Ok? ==> |r.value| <= 1
  {
    match Call(chk, conds)
    case Err(err) => Err(err)
    case Ok(p) => if p > 0.0 then Ok(ArrayVarsOf(e, p)) else Ok([])
  }

  /** The array variables of an event in a block that runs with probability `p`. */
  function ArrayVarsOf(e: Event, p: real): (r: seq<Named>)
    ensures |r| <= 1 && (|r| == 1 <==> e.ArrayEvent? && !OnlyStateVars(e.arr))
  {
    if e.ArrayEvent? && !OnlyStateVars(e.arr) then
      [Named(e.arr.name, e.arr.elemType, RWTally(Weighted(StreamedReads(e.arr.accesses), p), Weighted(StreamedWrites(e.arr.accesses), p)))]
    else []
  }

  /** The event is an array with a streamed access, in a block that runs. */
  predicate LiveStreamed(chk: CondsChecker, e: Event, conds: seq<Condition>) {
    e.ArrayEvent? && !OnlyStateVars(e.arr) && Call(chk, conds).Ok? && Call(chk, conds).value > 0.0
  }

  /** The working sets an event contributes. The condition chain is consulted only for an
      array with streamed accesses, so only then can a missing condition make it fail. */
  function WorkingSetsCollected(chk: CondsChecker, e: Event, conds: seq<Condition>, machine: Machine): (r: Result<seq<WsView>>)
    requires LiveStreamed(chk, e, conds) ==> e.arr.elemType + "_byte_n" in machine
    ensures r.Err? <==> e.ArrayEvent? && !OnlyStateVars(e.arr) && Call(chk, conds).Err?
    ensures r.Ok? ==> |r.value| <= 1 && AllNonEmpty(r.value)
  {
    if e.ArrayEvent? && !OnlyStateVars(e.arr) then
      match Call(chk, conds)
      case Err(err) => Err(err)
      case Ok(p) =>
        if p > 0.0 then
          Ok([WsView(NonStateAccesses(e.arr.accesses), machine[e.arr.elemType + "_byte_n"])])
        else Ok([])
    else Ok([])
  }

  /** The traffic an event contributes: for an array with streamed accesses, one region over
      those accesses, counted with the block's probability. */
  function TrafficCollected(chk: CondsChecker, e: Event, conds: seq<Condition>): (r: Result<seq<RegionVal>>)
    ensures r.Err? <==> Call(chk, conds).Err?
    ensures r.Ok? ==> |r.value| <= 1 && (|r.value| == 1 <==> LiveStreamed(chk, e, conds))
    ensures r.Ok? && |r.value| == 1 ==>
              && r.value[0].accesses == NonStateAccesses(e.arr.accesses) && r.value[0].count == Call(chk, conds).value
              && r.value[0].size == AccessSize(r.value[0].accesses)
  {
    match Call(chk, conds)
    case Err(err) => Err(err)
    case Ok(p) =>
      if e.ArrayEvent? && !OnlyStateVars(e.arr) && p > 0.0 then
        var accs := NonStateAccesses(e.arr.accesses);
        Ok([RegionVal(accs, AccessSize(accs), p)])
      else Ok([])
  }

  // Properties of the collectors

  /** A block that never runs contributes to no metric. */
  lemma DeadBlockCollectsNothing(chk: CondsChecker, e: Event, conds: seq<Condition>, machine: Machine)
    requires Call(chk, conds).Ok? && Call(chk, conds).value <= 0.0
    ensures FlopsCollected(chk, e, conds) == Ok([])
    ensures StateVarsCollected(chk, e, conds) == Ok([])
    ensures ArrayVarsCollected(chk, e, conds) == Ok([])
    ensures WorkingSetsCollected(chk, e, conds, machine) == Ok([])
    ensures TrafficCollected(chk, e, conds) == Ok([])
  {
  }

  /** A condition missing from the table makes every collector fail with the first missing
      condition, except the working-set collector, which fails only for an array with streamed
      accesses. */
  lemma MissingConditionPropagates(chk: CondsChecker, e: Event, conds: seq<Condition>, machine: Machine, k: nat)
    requires !chk.ignoreConds && k < |conds| && !Known(chk, conds[k])
    requires forall j :: 0 <= j < k ==> Known(chk, conds[j])
    ensures FlopsCollected(chk, e, conds) == Err(MissingCondition(conds[k].condition))
    ensures StateVarsCollected(chk, e, conds) == Err(MissingCondition(conds[k].condition))
    ensures ArrayVarsCollected(chk, e, conds) == Err(MissingCondition(conds[k].condition))
    ensures TrafficCollected(chk, e, conds) == Err(MissingCondition(conds[k].condition))
    ensures WorkingSetsCollected(chk, e, conds, machine).Err? <==> e.ArrayEvent? && !OnlyStateVars(e.arr)
  {
    CheckCondsFailsIffMissing(chk, conds);
    var j :| 0 <= j < |conds| && !Known(chk, conds[j])
             && CheckConds(chk, conds).error == MissingCondition(conds[j].condition)
             && forall i :: 0 <= i < j ==> Known(chk, conds[i]);
    assert j == k;
  }

  /** With conditions ignored every block counts in full: a flops event contributes its own
      counts and an array its unscaled streamed loads and stores. */
  lemma IgnoredConditionsCollectEverything(chk: CondsChecker, f: Flops, arr: ArrayRef, conds: seq<Condition>)
    requires chk.ignoreConds && !OnlyStateVars(arr)
    ensures FlopsCollected(chk, FlopsEvent(f), conds) == Ok([TallyOf(f)])
    ensures ArrayVarsCollected(chk, ArrayEvent(arr), conds) ==
              Ok([Named(arr.name, arr.elemType, RWTally(StreamedReads(arr.accesses) as real, StreamedWrites(arr.accesses) as real))])
    ensures TrafficCollected(chk, ArrayEvent(arr), conds) ==
              Ok([RegionVal(NonStateAccesses(arr.accesses), AccessSize(NonStateAccesses(arr.accesses)), 1.0)])
  {
  }

  /** Entries carrying the weighted tallies of a list of accesses sum to the weighted reads
      and writes of the list. */
  lemma {:induction false} ElementsSum(vs: seq<Named>, accs: seq<Access>, p: real)
    requires |vs| == |accs| && forall k :: 0 <= k < |vs| ==> vs[k].tally == ElementTally(accs[k], p)
    ensures SumNamedReads(vs) == Weighted(SumReads(accs), p)
    ensures SumNamedWrites(vs) == Weighted(SumWrites(accs), p)
  {
    if accs != [] {
      var init, last := accs[..|accs| - 1], accs[|accs| - 1];
      ElementsSum(vs[..|vs| - 1], init, p);
      WeightedDistributes(SumReads(init), last.readCount, p);
      WeightedDistributes(SumWrites(init), last.writeCount, p);
    }
  }

  /** An array's accesses are counted once: the element entries of the state-variable collector
      and the entry of the array-variable collector together carry every read and write of the
      array, and the base pointer is read once for each of them. */
  lemma ArrayTrafficSplits(chk: CondsChecker, arr: ArrayRef, conds: seq<Condition>)
    requires LiveStreamed(chk, ArrayEvent(arr), conds)
    ensures var svs, avs := StateVarsCollected(chk, ArrayEvent(arr), conds), ArrayVarsCollected(chk, ArrayEvent(arr), conds);
      var p := Call(chk, conds).value;
      && svs.Ok? && avs.Ok? && |svs.value| >= 1 && |avs.value| == 1
      && SumNamedReads(svs.value[1..]) + avs.value[0].tally.readCount == Weighted(SumReads(arr.accesses), p)
      && SumNamedWrites(svs.value[1..]) + avs.value[0].tally.writeCount == Weighted(SumWrites(arr.accesses), p)
      && svs.value[0].tally.readCount == Weighted(SumReads(arr.accesses) + SumWrites(arr.accesses), p)
  {
    ArrayTalliesSplit(arr, Call(chk, conds).value);
  }

  lemma ArrayTalliesSplit(arr: ArrayRef, p: real)
    requires !OnlyStateVars(arr)
    ensures var svs, avs := StateVarsOf(ArrayEvent(arr), p), ArrayVarsOf(ArrayEvent(arr), p);
      && |svs| >= 1 && |avs| == 1
      && SumNamedReads(svs[1..]) + avs[0].tally.readCount == Weighted(SumReads(arr.accesses), p)
      && SumNamedWrites(svs[1..]) + avs[0].tally.writeCount == Weighted(SumWrites(arr.accesses), p)
      && svs[0].tally.readCount == Weighted(SumReads(arr.accesses) + SumWrites(arr.accesses), p)
  {
    var svs, avs := StateVarsOf(ArrayEvent(arr), p), ArrayVarsOf(ArrayEvent(arr), p);
    assert svs[1..] == ElementsCollected(arr, StateAccesses(arr.accesses), p);
    ElementsAndStreamedSplit(svs[1..], avs[0].tally, arr.accesses, p);
    ArrayPointerSplit(arr, p);
  }

  /** The pointer entry of an array event reads the pointer once per read and per write. */
  lemma ArrayPointerSplit(arr: ArrayRef, p: real)
    ensures StateVarsOf(ArrayEvent(arr), p)[0].tally.readCount == Weighted(SumReads(arr.accesses) + SumWrites(arr.accesses), p)
  {
    assert StateVarsOf(ArrayEvent(arr), p)[0] == PointerCollected(arr, p);
    PointerSplit(PointerCollected(arr, p).tally, arr.accesses, p);
  }

  /** The element entries and the streamed tally split the weighted reads and writes. */
  lemma ElementsAndStreamedSplit(elems: seq<Named>, streamed: RWTally, accs: seq<Access>, p: real)
    requires |elems| == |StateAccesses(accs)|
    requires forall k :: 0 <= k < |elems| ==> elems[k].tally == ElementTally(StateAccesses(accs)[k], p)
    requires streamed == RWTally(Weighted(StreamedReads(accs), p), Weighted(StreamedWrites(accs), p))
    ensures SumNamedReads(elems) + streamed.readCount == Weighted(SumReads(accs), p)
    ensures SumNamedWrites(elems) + streamed.writeCount == Weighted(SumWrites(accs), p)
  {
    var states := StateAccesses(accs);
    ElementsSum(elems, states, p);
    StateAndStreamedPartition(accs);
    WeightedSplit(SumNamedReads(elems), streamed.readCount, SumReads(states), StreamedReads(accs), SumReads(accs), p);
    WeightedSplit(SumNamedWrites(elems), streamed.writeCount, SumWrites(states), StreamedWrites(accs), SumWrites(accs), p);
  }

  /** The pointer entry reads the base pointer once per read and per write. */
  lemma PointerSplit(pointer: RWTally, accs: seq<Access>, p: real)
    requires pointer == RWTally(Weighted(TotalTraffic(accs), p), Weighted(0, p))
    ensures pointer.readCount == Weighted(SumReads(accs) + SumWrites(accs), p)
  {
    PointerTrafficSplits(accs);
  }

  // The collectors, building the metric objects

  /** The flop-count collector: the checker is called first; a flops event in a live block
      yields its counts scaled by the probability. */
  method CollectFlops(chk: CondsChecker, e: Event, conds: seq<Condition>) returns (r: Result<seq<FlopCount>>)
    ensures r.Err? <==> FlopsCollected(chk, e, conds).Err?
    ensures r.Err? ==> r.error == FlopsCollected(chk, e, conds).error
    ensures r.Ok? ==> FlopValues(r.value) == FlopsCollected(chk, e, conds).value
  {
    var sat := Call(chk, conds);
    if sat.Err? {
      return Err(sat.error);
    }
    if e.FlopsEvent? && sat.value > 0.0 {
      var f := new FlopCount.FromFlops(e.flops);
      var scaled := f.Mul(sat.value);
      r := Ok([scaled]);
    } else {
      r := Ok([]);
    }
  }

  /** The entry of one loop-invariant access, scaled by `p`. */
  method ScaledElement(arr: ArrayRef, acc: Access, p: real) returns (sv: StateVar)
    ensures fresh(sv) && Named(sv.name, sv.elemType, sv.Value()) == ElementCollected(arr, acc, p)
  {
    var el := new StateVar.Element(arr, acc);
    sv := el.Mul(p);
    ScaleIsWeighted(el.Value(), acc.readCount, acc.writeCount, p);
  }

  /** The entries of the loop-invariant accesses, appended one access at a time. */
  method CollectElements(arr: ArrayRef, p: real, svs: seq<StateVar>) returns (out: seq<StateVar>)
    ensures StateVarValues(out) == StateVarValues(svs) + ElementsCollected(arr, StateAccesses(arr.accesses), p)
  {
    var states := StateAccesses(arr.accesses);
    ghost var prefix, elems := StateVarValues(svs), ElementsCollected(arr, states, p);
    out := svs;
    for k := 0 to |states|
      invariant StateVarValues(out) == prefix + elems[..k]
    {
      var scaled := ScaledElement(arr, states[k], p);
      StateVarValuesSnoc(out, prefix, elems[..k], scaled);
      PrefixSnoc(elems, k);
      out := out + [scaled];
    }
    PrefixFull(elems);
  }

  /** The state-variable collector. */
  method CollectStateVars(chk: CondsChecker, e: Event, conds: seq<Condition>) returns (r: Result<seq<StateVar>>)
    ensures r.Err? <==> StateVarsCollected(chk, e, conds).Err?
    ensures r.Err? ==> r.error == StateVarsCollected(chk, e, conds).error
    ensures r.Ok? ==> StateVarValues(r.value) == StateVarsCollected(chk, e, conds).value
  {
    var sat := Call(chk, conds);
    if sat.Err? {
      return Err(sat.error);
    }
    var p := sat.value;
    if e.ScalarEvent? && p > 0.0 {
      var sv := new StateVar.FromScalar(e.scalar);
      var scaled := sv.Mul(p);
      ScaleIsWeighted(sv.Value(), e.scalar.readCount, e.scalar.writeCount, p);
      r := Ok([scaled]);
    } else if e.ArrayEvent? && p > 0.0 {
      var ptr := new StateVar.Pointer(e.arr);
      var scaled := ptr.Mul(p);
      ScaleIsWeighted(ptr.Value(), TotalTraffic(e.arr.accesses), 0, p);
      assert StateVarValues([scaled]) == [PointerCollected(e.arr, p)];
      var out := CollectElements(e.arr, p, [scaled]);
      r := Ok(out);
    } else {
      r := Ok([]);
    }
  }

  /** The array-variable collector. */
  method CollectArrayVars(chk: CondsChecker, e: Event, conds: seq<Condition>) returns (r: Result<seq<ArrayVar>>)
    ensures r.Err? <==> ArrayVarsCollected(chk, e, conds).Err?
    ensures r.Err? ==> r.error == ArrayVarsCollected(chk, e, conds).error
    ensures r.Ok? ==> ArrayVarValues(r.value) == ArrayVarsCollected(chk, e, conds).value
  {
    var sat := Call(chk, conds);
    if sat.Err? {
      return Err(sat.error);
    }
    if e.ArrayEvent? && !OnlyStateVars(e.arr) && sat.value > 0.0 {
      var av := new ArrayVar.FromArray(e.arr);
      var scaled := av.Mul(sat.value);
      ScaleIsWeighted(av.Value(), StreamedReads(e.arr.accesses), StreamedWrites(e.arr.accesses), sat.value);
      r := Ok([scaled]);
    } else {
      r := Ok([]);
    }
  }

  /** The working-set collector: the event is tested before the checker is called. */
  method CollectWorkingSets(chk: CondsChecker, e: Event, conds: seq<Condition>, machine: Machine)
    returns (r: Result<seq<WorkingSet>>)
    requires e.ArrayEvent? ==> AllWellFormed(e.arr.accesses)
    requires LiveStreamed(chk, e, conds) ==> e.arr.elemType + "_byte_n" in machine
    ensures r.Err? <==> WorkingSetsCollected(chk, e, conds, machine).Err?
    ensures r.Err? ==> r.error == WorkingSetsCollected(chk, e, conds, machine).error
    ensures r.Ok? ==> WsViews(r.value) == WorkingSetsCollected(chk, e, conds, machine).value
    ensures r.Ok? ==> forall k :: 0 <= k < |r.value| ==> r.value[k].Valid() && r.value[k].sizeMemo == None
  {
    if e.ArrayEvent? && !OnlyStateVars(e.arr) {
      var sat := Call(chk, conds);
      if sat.Err? {
        return Err(sat.error);
      }
      if sat.value > 0.0 {
        var w := new WorkingSet.FromArray(e.arr, machine);
        return Ok([w]);
      }
    }
    r := Ok([]);
  }

  /** The traffic collector. */
  method CollectTraffic(chk: CondsChecker, e: Event, conds: seq<Condition>, machine: Machine)
    returns (r: Result<seq<Traffic>>)
    requires e.ArrayEvent? ==> AllWellFormed(e.arr.accesses)
    requires LiveStreamed(chk, e, conds) ==> Describes(machine, e.arr.elemType)
    ensures r.Err? <==> TrafficCollected(chk, e, conds).Err?
    ensures r.Err? ==> r.error == TrafficCollected(chk, e, conds).error
    ensures r.Ok? ==> |r.value| == |TrafficCollected(chk, e, conds).value| <= 1
    ensures r.Ok? && |r.value| == 1 ==>
              && r.value[0].Valid() && r.value[0].condsChk == chk && r.value[0].wsBlockN == 1.0
              && r.value[0].Value() == TrafficCollected(chk, e, conds).value
  {
    var sat := Call(chk, conds);
    if sat.Err? {
      return Err(sat.error);
    }
    if e.ArrayEvent? && !OnlyStateVars(e.arr) && sat.value > 0.0 {
      var t := new Traffic.FromArray(e.arr, machine, chk, sat.value);
      assert t.Value() == TrafficCollected(chk, e, conds).value;
      r := Ok([t]);
    } else {
      r := Ok([]);
    }
  }
}
