/** The condition checker: the probability that a block runs, given the chain of branch
    conditions that guard it. */
module Conditions {
  import opened Wrappers
  import opened Program

  /** The probability table of the conditions, and the global flag that treats every
      conditionally executed block as always executed. */
  datatype CondsChecker = CondsChecker(table: map<string, real>, ignoreConds: bool)

  /** The probability of one condition: the table value when the block runs if the condition
      holds, its complement otherwise; a condition missing from the table is an error. */
  function CheckCond(chk: CondsChecker, c: Condition): (r: Result<real>)
    ensures r.Ok? <==> c.condition in chk.table
    ensures r.Err? ==> r.error == MissingCondition(c.condition)
    ensures r.Ok? && 0.0 <= chk.table[c.condition] <= 1.0 ==> 0.0 <= r.value <= 1.0
  {
    if c.condition !in chk.table then Err(MissingCondition(c.condition))
    else
      var p := chk.table[c.condition];
      Ok(if c.when then p else 1.0 - p)
  }

  /** The probability of every condition of the chain, looked up in order, so that the first
      missing one is the error. */
  function Sats(chk: CondsChecker, conds: seq<Condition>): (r: Result<seq<real>>)
    ensures r.Ok? ==> |r.value| == |conds|
  {
    if conds == [] then Ok([])
    else
      match CheckCond(chk, conds[0])
      case Err(e) => Err(e)
      case Ok(p) =>
        match Sats(chk, conds[1..])
        case Err(e) => Err(e)
        case Ok(ps) => Ok([p] + ps)
  }

  /** The left fold of the product over the values, starting from `acc`. */
  function ReduceMul(xs: seq<real>, acc: real): real {
    if xs == [] then acc else ReduceMul(xs[1..], acc * xs[0])
  }

  /** The product of the probabilities along the chain, starting from 1.0. */
  function CheckConds(chk: CondsChecker, conds: seq<Condition>): (r: Result<real>)
    ensures r.Ok? <==> AllKnown(chk, conds)
    ensures conds == [] ==> r == Ok(1.0)
  {
    SatsAreWeights(chk, conds);
    match Sats(chk, conds)
    case Err(e) => Err(e)
    case Ok(ps) => Ok(ReduceMul(ps, 1.0))
  }

  /** Calling the checker on a chain: certain when conditions are ignored. */
  function Call(chk: CondsChecker, conds: seq<Condition>): (r: Result<real>)
    ensures r.Ok? <==> chk.ignoreConds || AllKnown(chk, conds)
    ensures chk.ignoreConds ==> r == Ok(1.0)
  {
    if chk.ignoreConds then Ok(1.0) else CheckConds(chk, conds)
  }

  /** Calling the checker on a single condition. */
  function CallOne(chk: CondsChecker, c: Condition): (r: Result<real>)
    ensures r == Call(chk, [c])
  {
    if chk.ignoreConds then Ok(1.0)
    else
      var r := CheckCond(chk, c);
      assert Sats(chk, [c]) == if r.Ok? then Ok([r.value]) else Err(r.error) by {
        assert [c][0] == c && [c][1..] == [];
        assert Sats(chk, []) == Ok([]);
        if r.Ok? { assert [r.value] + [] == [r.value]; }
      }
      assert r.Ok? ==> ReduceMul([r.value], 1.0) == r.value by {
        if r.Ok? { assert [r.value][1..] == []; }
      }
      r
  }

  predicate Known(chk: CondsChecker, c: Condition) {
    c.condition in chk.table
  }

  predicate AllKnown(chk: CondsChecker, conds: seq<Condition>) {
    forall k :: 0 <= k < |conds| ==> Known(chk, conds[k])
  }

  /** Reference weight of a known condition. */
  function Weight(chk: CondsChecker, c: Condition): real
    requires Known(chk, c)
  {
    if c.when then chk.table[c.condition] else 1.0 - chk.table[c.condition]
  }

  /** The reference weights of a chain whose conditions are all in the table. */
  function Weights(chk: CondsChecker, conds: seq<Condition>): (ws: seq<real>)
    requires AllKnown(chk, conds)
    ensures |ws| == |conds| && forall k :: 0 <= k < |conds| ==> ws[k] == Weight(chk, conds[k])
  {
    seq(|conds|, k requires 0 <= k < |conds| && AllKnown(chk, conds) => Weight(chk, conds[k]))
  }

  /** Reference product of a list of reals. */
  function Product(xs: seq<real>): real {
    if xs == [] then 1.0 else xs[0] * Product(xs[1..])
  }

  lemma MulAssoc(x: real, y: real, z: real)
    ensures x * (y * z) == (x * y) * z
  {
  }

  /** The left fold from `acc` is `acc` times the product. */
  lemma {:induction false} ReduceMulIsProduct(xs: seq<real>, acc: real)
    ensures ReduceMul(xs, acc) == acc * Product(xs)
  {
    if xs != [] {
      ReduceMulIsProduct(xs[1..], acc * xs[0]);
      MulAssoc(acc, xs[0], Product(xs[1..]));
    }
  }

  lemma {:induction false} ProductAppend(xs: seq<real>, ys: seq<real>)
    ensures Product(xs + ys) == Product(xs) * Product(ys)
  {
    if xs == [] {
      assert xs + ys == ys;
    } else {
      assert (xs + ys)[0] == xs[0];
      assert (xs + ys)[1..] == xs[1..] + ys;
      ProductAppend(xs[1..], ys);
      MulAssoc(xs[0], Product(xs[1..]), Product(ys));
    }
  }

  /** A product of probabilities is a probability. */
  lemma {:induction false} ProductIsProbability(xs: seq<real>)
    requires forall k :: 0 <= k < |xs| ==> 0.0 <= xs[k] <= 1.0
    ensures 0.0 <= Product(xs) <= 1.0
  {
    if xs != [] {
      ProductIsProbability(xs[1..]);
      var p, q := xs[0], Product(xs[1..]);
      assert 0.0 <= p * q <= 1.0 by {
        assert 0.0 <= p <= 1.0 && 0.0 <= q <= 1.0;
        assert p * q <= p * 1.0;
      }
    }
  }

  /** A zero factor makes the product zero. */
  lemma {:induction false} ProductZero(xs: seq<real>, k: nat)
    requires k < |xs| && xs[k] == 0.0
    ensures Product(xs) == 0.0
  {
    if k > 0 {
      assert xs[1..][k - 1] == xs[k];
      ProductZero(xs[1..], k - 1);
    }
  }

  /** The looked-up probabilities exist exactly when every condition is known, and they are
      then the reference weights. */
  lemma {:induction false} SatsAreWeights(chk: CondsChecker, conds: seq<Condition>)
    ensures Sats(chk, conds).Ok? <==> AllKnown(chk, conds)
    ensures AllKnown(chk, conds) ==> Sats(chk, conds).value == Weights(chk, conds)
  {
    if conds != [] {
      SatsAreWeights(chk, conds[1..]);
      if AllKnown(chk, conds) {
        assert AllKnown(chk, conds[1..]);
        assert Weights(chk, conds) == [Weight(chk, conds[0])] + Weights(chk, conds[1..]);
      } else if Known(chk, conds[0]) {
        var k :| 0 <= k < |conds| && !Known(chk, conds[k]);
        assert conds[1..][k - 1] == conds[k];
      }
    }
  }

  /** A chain succeeds exactly when all its conditions are known, and its probability is then
      the product of their weights: p for a condition that must hold, 1 - p otherwise. */
  lemma CheckCondsIsProduct(chk: CondsChecker, conds: seq<Condition>)
    ensures CheckConds(chk, conds).Ok? <==> AllKnown(chk, conds)
    ensures AllKnown(chk, conds) ==> CheckConds(chk, conds) == Ok(Product(Weights(chk, conds)))
  {
    SatsAreWeights(chk, conds);
    if AllKnown(chk, conds) {
      ReduceMulIsProduct(Weights(chk, conds), 1.0);
    }
  }

  /** The empty chain is certain. */
  lemma EmptyChainIsCertain(chk: CondsChecker)
    ensures CheckConds(chk, []) == Ok(1.0)
  {
  }

  /** The chain fails exactly when some condition is missing from the table, and then it
      names the first missing one. */
  lemma {:induction false} SatsFailIffMissing(chk: CondsChecker, conds: seq<Condition>)
    ensures Sats(chk, conds).Err? <==> exists k :: 0 <= k < |conds| && !Known(chk, conds[k])
    ensures Sats(chk, conds).Err? ==>
              exists k :: 0 <= k < |conds| && !Known(chk, conds[k])
                && Sats(chk, conds).error == MissingCondition(conds[k].condition)
                && forall j :: 0 <= j < k ==> Known(chk, conds[j])
  {
    if conds != [] {
      SatsFailIffMissing(chk, conds[1..]);
      if exists k :: 0 <= k < |conds[1..]| && !Known(chk, conds[1..][k]) {
        var k :| 0 <= k < |conds[1..]| && !Known(chk, conds[1..][k]);
        assert !Known(chk, conds[k + 1]);
      }
      if exists k :: 0 <= k < |conds| && !Known(chk, conds[k]) {
        var k :| 0 <= k < |conds| && !Known(chk, conds[k]);
        if k > 0 { assert conds[1..][k - 1] == conds[k]; }
      }
      if Known(chk, conds[0]) && Sats(chk, conds[1..]).Err? {
        var k :| 0 <= k < |conds[1..]| && !Known(chk, conds[1..][k])
                 && Sats(chk, conds[1..]).error == MissingCondition(conds[1..][k].condition)
                 && forall j :: 0 <= j < k ==> Known(chk, conds[1..][j]);
        assert conds[k + 1] == conds[1..][k];
        forall j | 0 <= j < k + 1 ensures Known(chk, conds[j]) {
          if j > 0 { assert conds[j] == conds[1..][j - 1]; }
        }
      }
    }
  }

  /** The chain fails exactly when some condition is missing from the table, and then it
      names the first missing one. */
  lemma CheckCondsFailsIffMissing(chk: CondsChecker, conds: seq<Condition>)
    ensures CheckConds(chk, conds).Err? <==> exists k :: 0 <= k < |conds| && !Known(chk, conds[k])
    ensures CheckConds(chk, conds).Err? ==>
              exists k :: 0 <= k < |conds| && !Known(chk, conds[k])
                && CheckConds(chk, conds).error == MissingCondition(conds[k].condition)
                && forall j :: 0 <= j < k ==> Known(chk, conds[j])
  {
    SatsFailIffMissing(chk, conds);
  }

  /** A chain that is the concatenation of two chains has the product of their probabilities. */
  lemma CheckCondsAppend(chk: CondsChecker, a: seq<Condition>, b: seq<Condition>)
    requires CheckConds(chk, a).Ok? && CheckConds(chk, b).Ok?
    ensures CheckConds(chk, a + b).Ok?
    ensures CheckConds(chk, a + b).value == CheckConds(chk, a).value * CheckConds(chk, b).value
  {
    CheckCondsIsProduct(chk, a);
    CheckCondsIsProduct(chk, b);
    var wa, wb := Weights(chk, a), Weights(chk, b);
    WeightsAppend(chk, a, b);
    CheckCondsIsProduct(chk, a + b);
    ProductAppend(wa, wb);
    MulCongruence(Product(wa), Product(wb), CheckConds(chk, a).value, CheckConds(chk, b).value);
  }

  lemma MulCongruence(x: real, y: real, x': real, y': real)
    requires x == x' && y == y'
    ensures x * y == x' * y'
  {
  }

  /** The weights of a concatenated chain are the weights of its two parts. */
  lemma WeightsAppend(chk: CondsChecker, a: seq<Condition>, b: seq<Condition>)
    requires AllKnown(chk, a) && AllKnown(chk, b)
    ensures AllKnown(chk, a + b) && Weights(chk, a + b) == Weights(chk, a) + Weights(chk, b)
  {
    forall k | 0 <= k < |a + b| ensures Known(chk, (a + b)[k]) {
      if k >= |a| { assert (a + b)[k] == b[k - |a|]; }
    }
  }

  /** With every table entry a probability, every chain yields a probability. */
  lemma CheckCondsIsProbability(chk: CondsChecker, conds: seq<Condition>)
    requires forall c :: c in chk.table ==> 0.0 <= chk.table[c] <= 1.0
    requires CheckConds(chk, conds).Ok?
    ensures 0.0 <= CheckConds(chk, conds).value <= 1.0
  {
    CheckCondsIsProduct(chk, conds);
    var ws := Weights(chk, conds);
    assert forall k :: 0 <= k < |ws| ==> 0.0 <= ws[k] <= 1.0 by {
      forall k | 0 <= k < |ws| ensures 0.0 <= ws[k] <= 1.0 {
        assert chk.table[conds[k].condition] in chk.table.Values;
      }
    }
    ProductIsProbability(ws);
  }

  /** A single condition of weight 0 on the chain makes the whole block dead. */
  lemma CheckCondsZero(chk: CondsChecker, conds: seq<Condition>, k: nat)
    requires CheckConds(chk, conds).Ok?
    requires k < |conds| && Known(chk, conds[k]) && Weight(chk, conds[k]) == 0.0
    ensures CheckConds(chk, conds).value == 0.0
  {
    CheckCondsIsProduct(chk, conds);
    ProductZero(Weights(chk, conds), k);
  }

  /** Every chain is certain once conditions are ignored, even with conditions missing from
      the table. */
  lemma IgnoreMakesCertain(chk: CondsChecker, conds: seq<Condition>)
    requires chk.ignoreConds
    ensures Call(chk, conds) == Ok(1.0)
  {
  }

  /** Two independent guards of probabilities 0.5 and 0.4 weight the block by 0.2. */
  lemma TwoGuardsExample(c1: string, c2: string)
    requires c1 != c2
    ensures Call(CondsChecker(map[c1 := 0.5, c2 := 0.6], false), [Condition(c1, true), Condition(c2, false)]) == Ok(0.2)
  {
    var chk := CondsChecker(map[c1 := 0.5, c2 := 0.6], false);
    var conds := [Condition(c1, true), Condition(c2, false)];
    assert CheckCond(chk, conds[1]) == Ok(0.4);
    assert Sats(chk, conds[1..]) == Ok([0.4]) by {
      assert conds[1..][1..] == [];
      assert [0.4] + [] == [0.4];
    }
    assert CheckCond(chk, conds[0]) == Ok(0.5);
    assert Sats(chk, conds) == Ok([0.5] + [0.4]);
    assert [0.5] + [0.4] == [0.5, 0.4];
    assert ReduceMul([0.4], 0.5) == ReduceMul([], 0.2) by {
      assert [0.4][1..] == [];
    }
  }
}
