/** The program representation the analyzer consumes: accesses, events, conditions and loops,
    with symbolic bounds already resolved to integers. */
module Program {

  /** One dimension of an array index: a single offset, or an inclusive range [lo, hi]. */
  datatype Dim = Point(x: int) | Range(lo: int, hi: int)

  /** An array access: one index dimension per entry of `index`, the loop variable each
      dimension is tied to ("" for none), and how often the access reads and writes. */
  datatype Access = Access(index: seq<Dim>, loopvars: seq<string>, readCount: nat, writeCount: nat)

  /** `index` and `loopvars` are aligned, and a dimension tied to a loop variable is an offset. */
  predicate WellFormed(acc: Access) {
    && |acc.index| == |acc.loopvars|
    && forall k :: 0 <= k < |acc.index| && acc.loopvars[k] != "" ==> acc.index[k].Point?
  }

  predicate AllWellFormed(accs: seq<Access>) {
    forall k :: 0 <= k < |accs| ==> WellFormed(accs[k])
  }

  /** A loop-invariant access: no index dimension depends on a loop variable. */
  predicate IsStateVar(acc: Access): (b: bool)
    ensures b <==> forall v :: v in acc.loopvars ==> v == ""
  {
    assert forall k :: 0 <= k < |acc.loopvars| ==> acc.loopvars[k] in acc.loopvars;
    forall k :: 0 <= k < |acc.loopvars| ==> acc.loopvars[k] == ""
  }

  /** The accesses that are streamed rather than kept in a register, in their original order. */
  function NonStateAccesses(accs: seq<Access>): (r: seq<Access>)
    ensures |r| <= |accs|
    ensures forall a :: a in r ==> a in accs && !IsStateVar(a)
    ensures forall a :: a in accs && !IsStateVar(a) ==> a in r
  {
    if accs == [] then []
    else
      var last := accs[|accs| - 1];
      NonStateAccesses(accs[..|accs| - 1]) + (if IsStateVar(last) then [] else [last])
  }

  /** No access is streamed exactly when every access is loop-invariant. */
  lemma NoneStreamed(accs: seq<Access>)
    ensures NonStateAccesses(accs) == [] <==> forall k :: 0 <= k < |accs| ==> IsStateVar(accs[k])
  {
    var r := NonStateAccesses(accs);
    if r != [] {
      assert r[0] in r;
    }
    if k :| 0 <= k < |accs| && !IsStateVar(accs[k]) {
      assert accs[k] in accs;
    }
  }

  lemma NonStateWellFormed(accs: seq<Access>)
    requires AllWellFormed(accs)
    ensures AllWellFormed(NonStateAccesses(accs))
  {
    var r := NonStateAccesses(accs);
    forall k | 0 <= k < |r| ensures WellFormed(r[k]) {
      assert r[k] in accs;
    }
  }

  /** The loop-invariant accesses, in their original order. */
  function StateAccesses(accs: seq<Access>): (r: seq<Access>)
    ensures |r| <= |accs|
    ensures forall a :: a in r ==> a in accs && IsStateVar(a)
    ensures forall a :: a in accs && IsStateVar(a) ==> a in r
  {
    if accs == [] then []
    else
      var last := accs[|accs| - 1];
      StateAccesses(accs[..|accs| - 1]) + (if IsStateVar(last) then [last] else [])
  }

  datatype Flops = Flops(adds: nat, multiplies: nat, divides: nat, specials: nat)

  datatype Scalar = Scalar(name: string, elemType: string, readCount: nat, writeCount: nat)

  datatype ArrayRef = ArrayRef(name: string, elemType: string, accesses: seq<Access>)

  /** The leaf events of the program tree. */
  datatype Event =
    | FlopsEvent(flops: Flops)
    | ScalarEvent(scalar: Scalar)
    | ArrayEvent(arr: ArrayRef)

  /** Every access of the array is loop-invariant (vacuously so when it has none). */
  predicate OnlyStateVars(arr: ArrayRef): (b: bool)
    ensures b <==> NonStateAccesses(arr.accesses) == []
  {
    NoneStreamed(arr.accesses);
    forall k :: 0 <= k < |arr.accesses| ==> IsStateVar(arr.accesses[k])
  }

  /** A branch guard: the named condition, and whether the guarded code runs when it holds. */
  datatype Condition = Condition(condition: string, when: bool)

  /** A loop whose bounds have been resolved to integers. */
  datatype LoopNode = LoopNode(linenum: int, loopvar: string, lb: int, ub: int, conds: seq<Condition>) {
    /** The iteration count `ub - lb + 1`: positive exactly when the loop runs at all. */
    function IterN(): (n: int)
      ensures n > 0 <==> lb <= ub
    {
      ub - lb + 1
    }
  }

  /** The part of a name before its first '.', as `name.split('.')[0]`. */
  function BaseName(name: string): (r: string)
    ensures |r| <= |name| && r == name[..|r|] && '.' !in r
    ensures |r| < |name| ==> name[|r|] == '.'
  {
    if name == [] then []
    else if name[0] == '.' then []
    else [name[0]] + BaseName(name[1..])
  }

  function DigitChar(d: nat): char
    requires d < 10
  {
    "0123456789"[d]
  }

  function NatToString(n: nat): string
    decreases n
  {
    if n < 10 then [DigitChar(n)] else NatToString(n / 10) + [DigitChar(n % 10)]
  }

  function IntToString(i: int): string {
    if i < 0 then "-" + NatToString(-i) else NatToString(i)
  }

  function DimToString(d: Dim): string {
    match d
    case Point(x) => IntToString(x)
    case Range(lo, hi) => "(" + IntToString(lo) + ", " + IntToString(hi) + ")"
  }

  function JoinDims(dims: seq<Dim>): string {
    if dims == [] then ""
    else if |dims| == 1 then DimToString(dims[0])
    else DimToString(dims[0]) + ", " + JoinDims(dims[1..])
  }

  /** The text of an index tuple as Python renders it: "()", "(3,)", "(1, (0, 7))". */
  function IndexString(index: seq<Dim>): (s: string)
    ensures |s| >= 2 && s[0] == '(' && s[|s| - 1] == ')'
    ensures |index| == 1 ==> s[|s| - 2] == ','
  {
    if |index| == 1 then "(" + DimToString(index[0]) + ",)" else "(" + JoinDims(index) + ")"
  }
}
