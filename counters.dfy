/** The simple metrics: floating-point operation counts, register-resident ("state") variable
    traffic and streamed array traffic. Each is an object whose `+=` updates it in place, whose
    `*` builds a scaled copy, and whose loop rule multiplies by the iteration count. */
module Counters {
  import opened Program

  /** The value of a FlopCount. */
  datatype FlopTally = FlopTally(adds: real, multiplies: real, divides: real, specials: real) {
    /** All operations, of whatever kind. */
    function Total(): real {
      adds + multiplies + divides + specials
    }
    function Plus(o: FlopTally): (r: FlopTally)
      ensures r.Total() == Total() + o.Total()
    {
      FlopTally(adds + o.adds, multiplies + o.multiplies, divides + o.divides, specials + o.specials)
    }
    function Scale(n: real): (r: FlopTally)
      ensures r.Total() == Total() * n
    {
      FlopTally(adds * n, multiplies * n, divides * n, specials * n)
    }
  }

  /** The value of a StateVar or an ArrayVar: how often it is read and written. */
  datatype RWTally = RWTally(readCount: real, writeCount: real) {
    /** All traffic: reads plus writes. */
    function Total(): real {
      readCount + writeCount
    }
    function Plus(o: RWTally): (r: RWTally)
      ensures r.Total() == Total() + o.Total()
    {
      RWTally(readCount + o.readCount, writeCount + o.writeCount)
    }
    function Scale(n: real): (r: RWTally)
      ensures r.Total() == Total() * n
    {
      RWTally(readCount * n, writeCount * n)
    }
  }

  function TallyOf(f: Flops): (r: FlopTally)
    ensures 0.0 <= r.adds && 0.0 <= r.multiplies && 0.0 <= r.divides && 0.0 <= r.specials
    ensures r.Total() == (f.adds + f.multiplies + f.divides + f.specials) as real
  {
    FlopTally(f.adds as real, f.multiplies as real, f.divides as real, f.specials as real)
  }

  /** Sum of reads plus writes over all accesses: the load count of the array's base pointer. */
  function TotalTraffic(accs: seq<Access>): (n: nat)
    ensures forall k :: 0 <= k < |accs| ==> accs[k].readCount + accs[k].writeCount <= n
  {
    if accs == [] then 0
    else TotalTraffic(accs[..|accs| - 1]) + accs[|accs| - 1].readCount + accs[|accs| - 1].writeCount
  }

  function SumReads(accs: seq<Access>): nat {
    if accs == [] then 0 else SumReads(accs[..|accs| - 1]) + accs[|accs| - 1].readCount
  }

  function SumWrites(accs: seq<Access>): nat {
    if accs == [] then 0 else SumWrites(accs[..|accs| - 1]) + accs[|accs| - 1].writeCount
  }

  /** Reads of the accesses that are not loop-invariant: each state access contributes 0. */
  function StreamedReads(accs: seq<Access>): nat {
    if accs == [] then 0
    else
      var last := accs[|accs| - 1];
      StreamedReads(accs[..|accs| - 1]) + (if IsStateVar(last) then 0 else last.readCount)
  }

  function StreamedWrites(accs: seq<Access>): nat {
    if accs == [] then 0
    else
      var last := accs[|accs| - 1];
      StreamedWrites(accs[..|accs| - 1]) + (if IsStateVar(last) then 0 else last.writeCount)
  }

  class FlopCount {
    const name: string
    var adds: real
    var multiplies: real
    var divides: real
    var specials: real

    function Value(): FlopTally
      reads this
    {
      FlopTally(adds, multiplies, divides, specials)
    }

    constructor FromFlops(f: Flops)
      ensures name == "" && Value() == TallyOf(f)
    {
      name := "";
      adds, multiplies, divides := f.adds as real, f.multiplies as real, f.divides as real;
      specials := f.specials as real;
    }

    constructor Copy(other: FlopCount)
      ensures name == "" && Value() == other.Value()
    {
      name := "";
      adds, multiplies, divides, specials := other.adds, other.multiplies, other.divides, other.specials;
    }

    /** `+=`: adds the other counts to these, kind by kind. */
    method AddFrom(other: FlopCount)
      modifies this
      ensures Value() == old(Value()).Plus(old(other.Value()))
    {
      ghost var otherBefore := other.Value();
      adds := adds + other.adds;
      multiplies := multiplies + other.multiplies;
      divides := divides + other.divides;
      specials := specials + other.specials;
      assert other != this ==> other.Value() == otherBefore;
    }

    /** `*`: a scaled copy; this object is left as it is. */
    method Mul(n: real) returns (r: FlopCount)
      ensures fresh(r) && r.name == "" && r.Value() == Value().Scale(n)
    {
      r := new FlopCount.Copy(this);
      r.adds := r.adds * n;
      r.multiplies := r.multiplies * n;
      r.divides := r.divides * n;
      r.specials := r.specials * n;
    }

    /** The loop rule: the counts of one iteration times the iteration count. */
    method Loop(loop: LoopNode) returns (r: FlopCount)
      ensures fresh(r) && r.Value() == Value().Scale(loop.IterN() as real)
    {
      r := Mul(loop.IterN() as real);
    }
  }

  class StateVar {
    const name: string
    const elemType: string
    var readCount: real
    var writeCount: real

    function Value(): RWTally
      reads this
    {
      RWTally(readCount, writeCount)
    }

    /** A scalar variable keeps its own name, type and counts. */
    constructor FromScalar(sv: Scalar)
      ensures name == sv.name && elemType == sv.elemType
      ensures Value() == RWTally(sv.readCount as real, sv.writeCount as real)
    {
      name, elemType := sv.name, sv.elemType;
      readCount, writeCount := sv.readCount as real, sv.writeCount as real;
    }

    /** The base pointer of an array: named by the part of the array name before its first
        '.', of pointer type, read once for every read and every write of any element. */
    constructor Pointer(arr: ArrayRef)
      ensures name == BaseName(arr.name) && elemType == arr.elemType + " *"
      ensures Value() == RWTally(TotalTraffic(arr.accesses) as real, 0.0)
    {
      name, elemType := BaseName(arr.name), arr.elemType + " *";
      readCount, writeCount := TotalTraffic(arr.accesses) as real, 0.0;
    }

    /** A loop-invariant element, named by the array name followed by its index tuple. */
    constructor Element(arr: ArrayRef, acc: Access)
      ensures name == arr.name + IndexString(acc.index) && elemType == arr.elemType
      ensures Value() == RWTally(acc.readCount as real, acc.writeCount as real)
    {
      name, elemType := arr.name + IndexString(acc.index), arr.elemType;
      readCount, writeCount := acc.readCount as real, acc.writeCount as real;
    }

    constructor Copy(other: StateVar)
      ensures name == other.name && elemType == other.elemType && Value() == other.Value()
    {
      name, elemType := other.name, other.elemType;
      readCount, writeCount := other.readCount, other.writeCount;
    }

    /** `+=`, defined only between the same variable. */
    method AddFrom(other: StateVar)
      requires other.name == name && other.elemType == elemType
      modifies this
      ensures Value() == old(Value()).Plus(old(other.Value()))
    {
      ghost var otherBefore := other.Value();
      readCount := readCount + other.readCount;
      writeCount := writeCount + other.writeCount;
      assert other != this ==> other.Value() == otherBefore;
    }

    method Mul(n: real) returns (r: StateVar)
      ensures fresh(r) && r.name == name && r.elemType == elemType && r.Value() == Value().Scale(n)
    {
      r := new StateVar.Copy(this);
      r.readCount := r.readCount * n;
      r.writeCount := r.writeCount * n;
    }

    method Loop(loop: LoopNode) returns (r: StateVar)
      ensures fresh(r) && r.name == name && r.elemType == elemType
      ensures r.Value() == Value().Scale(loop.IterN() as real)
    {
      r := Mul(loop.IterN() as real);
    }
  }

  class ArrayVar {
    const name: string
    const elemType: string
    var readCount: real
    var writeCount: real

    function Value(): RWTally
      reads this
    {
      RWTally(readCount, writeCount)
    }

    /** Loads and stores of an array, counting only its accesses that are not loop-invariant. */
    constructor FromArray(arr: ArrayRef)
      ensures name == arr.name && elemType == arr.elemType
      ensures Value() == RWTally(StreamedReads(arr.accesses) as real, StreamedWrites(arr.accesses) as real)
    {
      name, elemType := arr.name, arr.elemType;
      readCount, writeCount := StreamedReads(arr.accesses) as real, StreamedWrites(arr.accesses) as real;
    }

    /** The older analyzer's variant: the name is cut at its first '.'. */
    constructor FromArrayBaseName(arr: ArrayRef)
      ensures name == BaseName(arr.name) && elemType == arr.elemType
      ensures Value() == RWTally(StreamedReads(arr.accesses) as real, StreamedWrites(arr.accesses) as real)
    {
      name, elemType := BaseName(arr.name), arr.elemType;
      readCount, writeCount := StreamedReads(arr.accesses) as real, StreamedWrites(arr.accesses) as real;
    }

    constructor Copy(other: ArrayVar)
      ensures name == other.name && elemType == other.elemType && Value() == other.Value()
    {
      name, elemType := other.name, other.elemType;
      readCount, writeCount := other.readCount, other.writeCount;
    }

    method AddFrom(other: ArrayVar)
      requires other.name == name && other.elemType == elemType
      modifies this
      ensures Value() == old(Value()).Plus(old(other.Value()))
    {
      ghost var otherBefore := other.Value();
      readCount := readCount + other.readCount;
      writeCount := writeCount + other.writeCount;
      assert other != this ==> other.Value() == otherBefore;
    }

    method Mul(n: real) returns (r: ArrayVar)
      ensures fresh(r) && r.name == name && r.elemType == elemType && r.Value() == Value().Scale(n)
    {
      r := new ArrayVar.Copy(this);
      r.readCount := r.readCount * n;
      r.writeCount := r.writeCount * n;
    }

    method Loop(loop: LoopNode) returns (r: ArrayVar)
      ensures fresh(r) && r.name == name && r.elemType == elemType
      ensures r.Value() == Value().Scale(loop.IterN() as real)
    {
      r := Mul(loop.IterN() as real);
    }
  }

  // Values of lists of metric objects

  /** The value of a named read/write metric: a StateVar or an ArrayVar. */
  datatype Named = Named(name: string, elemType: string, tally: RWTally)

  /** The reads and the writes of a list of named metrics, summed in order. */
  function SumNamedReads(vs: seq<Named>): real {
    if vs == [] then 0.0 else SumNamedReads(vs[..|vs| - 1]) + vs[|vs| - 1].tally.readCount
  }

  function SumNamedWrites(vs: seq<Named>): real {
    if vs == [] then 0.0 else SumNamedWrites(vs[..|vs| - 1]) + vs[|vs| - 1].tally.writeCount
  }

  function FlopValues(fs: seq<FlopCount>): (r: seq<FlopTally>)
    reads fs
    ensures |r| == |fs| && forall k :: 0 <= k < |fs| ==> r[k] == fs[k].Value()
  {
    seq(|fs|, k requires 0 <= k < |fs| reads fs => fs[k].Value())
  }

  function StateVarValues(svs: seq<StateVar>): (r: seq<Named>)
    reads svs
    ensures |r| == |svs|
  {
    if svs == [] then []
    else
      var last := svs[|svs| - 1];
      StateVarValues(svs[..|svs| - 1]) + [Named(last.name, last.elemType, last.Value())]
  }

  function ArrayVarValues(avs: seq<ArrayVar>): (r: seq<Named>)
    reads avs
    ensures |r| == |avs|
    ensures forall k :: 0 <= k < |avs| ==> r[k] == Named(avs[k].name, avs[k].elemType, avs[k].Value())
  {
    seq(|avs|, k requires 0 <= k < |avs| reads avs => Named(avs[k].name, avs[k].elemType, avs[k].Value()))
  }

  lemma StateVarValuesSnoc(out: seq<StateVar>, prefix: seq<Named>, es: seq<Named>, sv: StateVar)
    requires StateVarValues(out) == prefix + es
    ensures StateVarValues(out + [sv]) == prefix + (es + [Named(sv.name, sv.elemType, sv.Value())])
  {
    assert (out + [sv])[..|out|] == out;
  }

  // Properties of the metric values

  /** Metric addition does not depend on the order of its operands. */
  lemma PlusCommutes(a: FlopTally, b: FlopTally, c: RWTally, d: RWTally)
    ensures a.Plus(b) == b.Plus(a) && c.Plus(d) == d.Plus(c)
  {
  }

  lemma PlusAssociates(a: FlopTally, b: FlopTally, c: FlopTally, x: RWTally, y: RWTally, z: RWTally)
    ensures a.Plus(b).Plus(c) == a.Plus(b.Plus(c))
    ensures x.Plus(y).Plus(z) == x.Plus(y.Plus(z))
  {
  }

  lemma MulDistributes(a: real, b: real, n: real)
    ensures (a + b) * n == a * n + b * n
  {
  }

  /** Looping over a sum of contributions is the sum of the looped contributions. */
  lemma LoopDistributes(a: FlopTally, b: FlopTally, x: RWTally, y: RWTally, n: real)
    ensures a.Plus(b).Scale(n) == a.Scale(n).Plus(b.Scale(n))
    ensures x.Plus(y).Scale(n) == x.Scale(n).Plus(y.Scale(n))
  {
    FlopsDistribute(a, b, n);
    TalliesDistribute(x, y, n);
  }

  lemma FlopsDistribute(a: FlopTally, b: FlopTally, n: real)
    ensures a.Plus(b).Scale(n) == a.Scale(n).Plus(b.Scale(n))
  {
    MulDistributes(a.adds, b.adds, n);
    MulDistributes(a.multiplies, b.multiplies, n);
    MulDistributes(a.divides, b.divides, n);
    MulDistributes(a.specials, b.specials, n);
  }

  lemma TalliesDistribute(x: RWTally, y: RWTally, n: real)
    ensures x.Plus(y).Scale(n) == x.Scale(n).Plus(y.Scale(n))
  {
    MulDistributes(x.readCount, y.readCount, n);
    MulDistributes(x.writeCount, y.writeCount, n);
  }

  /** No access is counted twice: the element entries of the loop-invariant accesses and the
      array's streamed count split the array's reads and writes between them. */
  lemma {:induction false} StateAndStreamedPartition(accs: seq<Access>)
    ensures SumReads(StateAccesses(accs)) + StreamedReads(accs) == SumReads(accs)
    ensures SumWrites(StateAccesses(accs)) + StreamedWrites(accs) == SumWrites(accs)
  {
    if accs != [] {
      var init, last := accs[..|accs| - 1], accs[|accs| - 1];
      StateAndStreamedPartition(init);
      SumsOfAppend(StateAccesses(init), if IsStateVar(last) then [last] else []);
    }
  }

  lemma {:induction false} SumsOfAppend(a: seq<Access>, b: seq<Access>)
    ensures SumReads(a + b) == SumReads(a) + SumReads(b)
    ensures SumWrites(a + b) == SumWrites(a) + SumWrites(b)
    ensures TotalTraffic(a + b) == TotalTraffic(a) + TotalTraffic(b)
    decreases |b|
  {
    if b == [] {
      assert a + b == a;
    } else {
      SumsOfAppend(a, b[..|b| - 1]);
      assert (a + b)[..|a + b| - 1] == a + b[..|b| - 1];
      assert (a + b)[|a + b| - 1] == b[|b| - 1];
    }
  }

  /** The base pointer is read once for every read and every write of the array. */
  lemma {:induction false} PointerTrafficSplits(accs: seq<Access>)
    ensures TotalTraffic(accs) == SumReads(accs) + SumWrites(accs)
  {
    if accs != [] {
      PointerTrafficSplits(accs[..|accs| - 1]);
    }
  }
}
