/** The unroll transform of a working set along one loop: accesses that do not use the loop
    variable pass through; the others are sorted into buckets keyed by every dimension except
    the loop variable's, and each bucket collapses into one access whose loop dimension is the
    range [lb + least offset, ub + greatest offset]. Both analyzer versions share it; the
    current one carries the bucket's read and write sums into the merged access, the older one
    leaves the merged access without counts. Buckets are visited in the order their keys first
    appear. */
module Unroll {
  import opened Program
  import opened Box
  import opened Counters

  /** A bucket key: the position of the loop dimension, and the index and loop variables with
      that position removed. */
  datatype Key = Key(pos: nat, rest: seq<Dim>, restVars: seq<string>)

  /** What a bucket records of each access: its offset in the loop dimension and its counts. */
  datatype Entry = Entry(offset: int, readCount: nat, writeCount: nat)

  /** The state after sorting a prefix of the accesses. */
  datatype Sorting = Sorting(pass: seq<Access>, keys: seq<Key>, buckets: map<Key, seq<Entry>>)

  /** The first position of `v`, as `list.index`. */
  function IndexOf(xs: seq<string>, v: string): (i: nat)
    requires v in xs
    ensures i < |xs| && xs[i] == v
    ensures forall j :: 0 <= j < i ==> xs[j] != v
  {
    if xs[0] == v then 0 else 1 + IndexOf(xs[1..], v)
  }

  function Del<T>(s: seq<T>, i: nat): (r: seq<T>)
    requires i < |s|
    ensures |r| == |s| - 1
  {
    s[..i] + s[i + 1..]
  }

  /** The elements after the removed one move down by one place. */
  lemma DelAt<T>(s: seq<T>, i: nat, k: nat)
    requires i < |s| && k < |s| - 1
    ensures Del(s, i)[k] == if k < i then s[k] else s[k + 1]
  {
  }

  function Ins<T>(s: seq<T>, i: nat, v: T): (r: seq<T>)
    requires i <= |s|
    ensures |r| == |s| + 1 && r[i] == v
    ensures forall k :: 0 <= k < i ==> r[k] == s[k]
    ensures forall k :: i < k < |r| ==> r[k] == s[k - 1]
  {
    s[..i] + [v] + s[i..]
  }

  /** Putting a value back where one was removed replaces that element. */
  lemma InsDel<T>(s: seq<T>, i: nat, v: T)
    requires i < |s|
    ensures Ins(Del(s, i), i, v) == s[i := v]
  {
  }

  predicate Bucketed(acc: Access, v: string) {
    v in acc.loopvars
  }

  function KeyOf(acc: Access, v: string): Key
    requires WellFormed(acc) && Bucketed(acc, v)
  {
    var i := IndexOf(acc.loopvars, v);
    Key(i, Del(acc.index, i), Del(acc.loopvars, i))
  }

  function EntryOf(acc: Access, v: string): Entry
    requires WellFormed(acc) && Bucketed(acc, v) && v != ""
  {
    var i := IndexOf(acc.loopvars, v);
    Entry(acc.index[i].x, acc.readCount, acc.writeCount)
  }

  /** A key has the shape of an access with one dimension removed. */
  predicate KeyShape(k: Key) {
    && k.pos <= |k.rest|
    && |k.rest| == |k.restVars|
    && forall m :: 0 <= m < |k.rest| && k.restVars[m] != "" ==> k.rest[m].Point?
  }

  /** Keys are listed once each, they are exactly the buckets' keys, and no bucket is empty. */
  predicate ValidSorting(s: Sorting) {
    && (forall a, b :: 0 <= a < b < |s.keys| ==> s.keys[a] != s.keys[b])
    && (forall k :: k in s.buckets ==> k in s.keys)
    && (forall k :: k in s.keys ==> k in s.buckets)
    && (forall k :: k in s.buckets ==> |s.buckets[k]| > 0 && KeyShape(k))
  }

  /** One step of the sorting loop. */
  function SortStep(s: Sorting, acc: Access, v: string): (r: Sorting)
    requires ValidSorting(s) && WellFormed(acc) && v != ""
    ensures ValidSorting(r)
    ensures |r.pass| + |r.keys| <= |s.pass| + |s.keys| + 1
    ensures |r.pass| + |r.keys| > 0
    ensures forall a :: a in r.pass ==> a in s.pass || a == acc
  {
    if !Bucketed(acc, v) then Sorting(s.pass + [acc], s.keys, s.buckets)
    else
      var key, e := KeyOf(acc, v), EntryOf(acc, v);
      KeyOfShape(acc, v);
      if key in s.buckets then Sorting(s.pass, s.keys, s.buckets[key := s.buckets[key] + [e]])
      else Sorting(s.pass, s.keys + [key], s.buckets[key := [e]])
  }

  lemma KeyOfShape(acc: Access, v: string)
    requires WellFormed(acc) && Bucketed(acc, v)
    ensures KeyShape(KeyOf(acc, v))
  {
    var i := IndexOf(acc.loopvars, v);
    var k := KeyOf(acc, v);
    forall m | 0 <= m < |k.rest| && k.restVars[m] != "" ensures k.rest[m].Point? {
      DelAt(acc.index, i, m);
      DelAt(acc.loopvars, i, m);
    }
  }

  function Sort(accs: seq<Access>, v: string): (r: Sorting)
    requires AllWellFormed(accs) && v != ""
    ensures ValidSorting(r)
    ensures |r.pass| + |r.keys| <= |accs|
    ensures |accs| > 0 ==> |r.pass| + |r.keys| > 0
    ensures forall a :: a in r.pass ==> a in accs
  {
    if accs == [] then Sorting([], [], map[])
    else
      var init := accs[..|accs| - 1];
      assert forall k :: 0 <= k < |init| ==> init[k] == accs[k];
      SortStep(Sort(init, v), accs[|accs| - 1], v)
  }

  /** Sorting one more access is one more step. */
  lemma SortSnoc(accs: seq<Access>, j: nat, v: string)
    requires AllWellFormed(accs) && v != "" && j < |accs|
    ensures AllWellFormed(accs[..j]) && AllWellFormed(accs[..j + 1])
    ensures Sort(accs[..j + 1], v) == SortStep(Sort(accs[..j], v), accs[j], v)
  {
    assert accs[..j + 1][..j] == accs[..j];
  }

  function MinOff(es: seq<Entry>): (m: int)
    requires |es| > 0
    ensures forall k :: 0 <= k < |es| ==> m <= es[k].offset
    ensures exists k :: 0 <= k < |es| && m == es[k].offset
  {
    if |es| == 1 then es[0].offset
    else
      var m := MinOff(es[1..]);
      assert forall k :: 1 <= k < |es| ==> es[k] == es[1..][k - 1];
      if es[0].offset <= m then es[0].offset else m
  }

  function MaxOff(es: seq<Entry>): (m: int)
    requires |es| > 0
    ensures forall k :: 0 <= k < |es| ==> es[k].offset <= m
    ensures exists k :: 0 <= k < |es| && m == es[k].offset
  {
    if |es| == 1 then es[0].offset
    else
      var m := MaxOff(es[1..]);
      assert forall k :: 1 <= k < |es| ==> es[k] == es[1..][k - 1];
      if m <= es[0].offset then es[0].offset else m
  }

  function EntryReads(es: seq<Entry>): nat {
    if es == [] then 0 else EntryReads(es[..|es| - 1]) + es[|es| - 1].readCount
  }

  function EntryWrites(es: seq<Entry>): nat {
    if es == [] then 0 else EntryWrites(es[..|es| - 1]) + es[|es| - 1].writeCount
  }

  /** The access a bucket collapses into: the loop dimension becomes a range covering every
      offset of the bucket over the whole loop, and is no longer tied to a loop variable. */
  function MergeBucket(k: Key, es: seq<Entry>, lb: int, ub: int, keepCounts: bool): (r: Access)
    requires |es| > 0 && KeyShape(k)
    ensures |r.index| == |r.loopvars| == |k.rest| + 1
    ensures WellFormed(r)
    ensures r.index[k.pos] == Range(lb + MinOff(es), ub + MaxOff(es)) && r.loopvars[k.pos] == ""
  {
    Access(Ins(k.rest, k.pos, Range(lb + MinOff(es), ub + MaxOff(es))),
           Ins(k.restVars, k.pos, ""),
           if keepCounts then EntryReads(es) else 0,
           if keepCounts then EntryWrites(es) else 0)
  }

  predicate MergeReady(keys: seq<Key>, buckets: map<Key, seq<Entry>>) {
    forall k :: k in keys ==> k in buckets && |buckets[k]| > 0 && KeyShape(k)
  }

  /** The merged accesses, one per key, in key order. */
  function MergeAll(keys: seq<Key>, buckets: map<Key, seq<Entry>>, lb: int, ub: int, keepCounts: bool): (r: seq<Access>)
    requires MergeReady(keys, buckets)
    ensures |r| == |keys|
  {
    if keys == [] then []
    else MergeAll(keys[..|keys| - 1], buckets, lb, ub, keepCounts)
         + [MergeBucket(keys[|keys| - 1], buckets[keys[|keys| - 1]], lb, ub, keepCounts)]
  }

  lemma {:induction false} MergeAllAt(keys: seq<Key>, buckets: map<Key, seq<Entry>>, lb: int, ub: int, keepCounts: bool, j: nat)
    requires MergeReady(keys, buckets) && j < |keys|
    ensures MergeAll(keys, buckets, lb, ub, keepCounts)[j] == MergeBucket(keys[j], buckets[keys[j]], lb, ub, keepCounts)
  {
    if j < |keys| - 1 {
      MergeAllAt(keys[..|keys| - 1], buckets, lb, ub, keepCounts, j);
    }
  }

  lemma MergeAllSnoc(keys: seq<Key>, buckets: map<Key, seq<Entry>>, lb: int, ub: int, keepCounts: bool, j: nat)
    requires MergeReady(keys, buckets) && j < |keys|
    ensures MergeReady(keys[..j], buckets) && MergeReady(keys[..j + 1], buckets)
    ensures MergeAll(keys[..j + 1], buckets, lb, ub, keepCounts)
            == MergeAll(keys[..j], buckets, lb, ub, keepCounts) + [MergeBucket(keys[j], buckets[keys[j]], lb, ub, keepCounts)]
  {
    assert keys[..j + 1][..j] == keys[..j];
  }

  /** The accesses of `loop` unrolled over [lb, ub]: the pass-through accesses in their order,
      then one merged access per bucket. */
  function Unrolled(accs: seq<Access>, v: string, lb: int, ub: int, keepCounts: bool): (r: seq<Access>)
    requires AllWellFormed(accs) && v != ""
    ensures |r| <= |accs|
    ensures |accs| > 0 ==> |r| > 0
  {
    var s := Sort(accs, v);
    s.pass + MergeAll(s.keys, s.buckets, lb, ub, keepCounts)
  }

  // The pass-through accesses

  /** Reference definition: the accesses that do not use the loop variable, in order. */
  function Untouched(accs: seq<Access>, v: string): (r: seq<Access>)
    ensures forall a :: a in r <==> a in accs && !Bucketed(a, v)
  {
    if accs == [] then []
    else
      var last := accs[|accs| - 1];
      Untouched(accs[..|accs| - 1], v) + (if Bucketed(last, v) then [] else [last])
  }

  /** Sorting keeps exactly the non-looped accesses, unchanged and in order, and the unrolled
      working set starts with them. */
  lemma {:induction false} PassThroughIsFilter(accs: seq<Access>, v: string, lb: int, ub: int, keepCounts: bool)
    requires AllWellFormed(accs) && v != ""
    ensures Sort(accs, v).pass == Untouched(accs, v)
    ensures Unrolled(accs, v, lb, ub, keepCounts)[..|Untouched(accs, v)|] == Untouched(accs, v)
  {
    if accs != [] {
      var init := accs[..|accs| - 1];
      assert forall k :: 0 <= k < |init| ==> init[k] == accs[k];
      PassThroughIsFilter(init, v, lb, ub, keepCounts);
    }
  }

  // The buckets

  predicate Contributes(accs: seq<Access>, v: string, j: int, k: Key, e: Entry)
    requires AllWellFormed(accs) && v != ""
  {
    0 <= j < |accs| && Bucketed(accs[j], v) && KeyOf(accs[j], v) == k && EntryOf(accs[j], v) == e
  }

  /** One sorting step adds the entry of a looped access to its key's bucket and keeps the rest. */
  lemma StepBuckets(s: Sorting, acc: Access, v: string, k: Key, e: Entry)
    requires ValidSorting(s) && WellFormed(acc) && v != ""
    ensures (k in SortStep(s, acc, v).buckets && e in SortStep(s, acc, v).buckets[k]) <==>
            (k in s.buckets && e in s.buckets[k]) || (Bucketed(acc, v) && k == KeyOf(acc, v) && e == EntryOf(acc, v))
  {
  }

  lemma ContributesSplit(accs: seq<Access>, init: seq<Access>, v: string, k: Key, e: Entry)
    requires AllWellFormed(accs) && v != "" && |accs| > 0 && init == accs[..|accs| - 1]
    ensures AllWellFormed(init)
    ensures (exists j :: Contributes(accs, v, j, k, e)) <==>
            (exists j :: Contributes(init, v, j, k, e)) || Contributes(accs, v, |accs| - 1, k, e)
  {
    assert forall q :: 0 <= q < |init| ==> init[q] == accs[q];
    if exists j :: Contributes(accs, v, j, k, e) {
      var j :| Contributes(accs, v, j, k, e);
      if j < |init| {
        assert Contributes(init, v, j, k, e);
      }
    }
    if exists j :: Contributes(init, v, j, k, e) {
      var j :| Contributes(init, v, j, k, e);
      assert Contributes(accs, v, j, k, e);
    }
  }

  /** An entry lies in a bucket exactly when some looped access has that key and that entry. */
  lemma {:induction false} SortBucketsExactly(accs: seq<Access>, v: string, k: Key, e: Entry)
    requires AllWellFormed(accs) && v != ""
    ensures (k in Sort(accs, v).buckets && e in Sort(accs, v).buckets[k]) <==>
            exists j :: Contributes(accs, v, j, k, e)
  {
    if accs != [] {
      var init, last := accs[..|accs| - 1], accs[|accs| - 1];
      ContributesSplit(accs, init, v, k, e);
      SortBucketsExactly(init, v, k, e);
      StepBuckets(Sort(init, v), last, v, k, e);
    }
  }

  /** The buckets are keyed exactly by the keys of the looped accesses, each key listed once:
      accesses that agree on every other dimension share one bucket. */
  lemma SortKeysExactly(accs: seq<Access>, v: string, k: Key)
    requires AllWellFormed(accs) && v != ""
    ensures k in Sort(accs, v).keys <==>
            exists j :: 0 <= j < |accs| && Bucketed(accs[j], v) && KeyOf(accs[j], v) == k
  {
    if k in Sort(accs, v).keys {
      KeyHasAccess(accs, v, k);
    }
    if exists j :: 0 <= j < |accs| && Bucketed(accs[j], v) && KeyOf(accs[j], v) == k {
      var j :| 0 <= j < |accs| && Bucketed(accs[j], v) && KeyOf(accs[j], v) == k;
      assert Contributes(accs, v, j, k, EntryOf(accs[j], v));
      SortBucketsExactly(accs, v, k, EntryOf(accs[j], v));
    }
  }

  lemma KeyHasAccess(accs: seq<Access>, v: string, k: Key)
    requires AllWellFormed(accs) && v != "" && k in Sort(accs, v).keys
    ensures exists j :: 0 <= j < |accs| && Bucketed(accs[j], v) && KeyOf(accs[j], v) == k
  {
    var e := Sort(accs, v).buckets[k][0];
    SortBucketsExactly(accs, v, k, e);
    var j :| Contributes(accs, v, j, k, e);
  }

  /** The unrolled working set is again well formed. */
  lemma UnrolledWellFormed(accs: seq<Access>, v: string, lb: int, ub: int, keepCounts: bool)
    requires AllWellFormed(accs) && v != ""
    ensures AllWellFormed(Unrolled(accs, v, lb, ub, keepCounts))
  {
    var s := Sort(accs, v);
    var r := Unrolled(accs, v, lb, ub, keepCounts);
    forall q | 0 <= q < |r| ensures WellFormed(r[q]) {
      if q < |s.pass| {
        assert r[q] == s.pass[q];
        assert s.pass[q] in accs;
      } else {
        assert r[q] == MergeAll(s.keys, s.buckets, lb, ub, keepCounts)[q - |s.pass|];
        MergeAllAt(s.keys, s.buckets, lb, ub, keepCounts, q - |s.pass|);
      }
    }
  }

  // Reads and writes

  function BucketReads(keys: seq<Key>, buckets: map<Key, seq<Entry>>): nat
    requires forall k :: k in keys ==> k in buckets
  {
    if keys == [] then 0
    else BucketReads(keys[..|keys| - 1], buckets) + EntryReads(buckets[keys[|keys| - 1]])
  }

  function BucketWrites(keys: seq<Key>, buckets: map<Key, seq<Entry>>): nat
    requires forall k :: k in keys ==> k in buckets
  {
    if keys == [] then 0
    else BucketWrites(keys[..|keys| - 1], buckets) + EntryWrites(buckets[keys[|keys| - 1]])
  }

  lemma {:induction false} BucketFrame(keys: seq<Key>, buckets: map<Key, seq<Entry>>, key: Key, es: seq<Entry>)
    requires forall k :: k in keys ==> k in buckets
    requires key !in keys
    ensures BucketReads(keys, buckets[key := es]) == BucketReads(keys, buckets)
    ensures BucketWrites(keys, buckets[key := es]) == BucketWrites(keys, buckets)
  {
    if keys != [] {
      BucketFrame(keys[..|keys| - 1], buckets, key, es);
    }
  }

  lemma {:induction false} BucketExtend(keys: seq<Key>, buckets: map<Key, seq<Entry>>, key: Key, e: Entry)
    requires forall k :: k in keys ==> k in buckets
    requires forall a, b :: 0 <= a < b < |keys| ==> keys[a] != keys[b]
    requires key in keys
    ensures BucketReads(keys, buckets[key := buckets[key] + [e]]) == BucketReads(keys, buckets) + e.readCount
    ensures BucketWrites(keys, buckets[key := buckets[key] + [e]]) == BucketWrites(keys, buckets) + e.writeCount
  {
    var init, last := keys[..|keys| - 1], keys[|keys| - 1];
    var es := buckets[key] + [e];
    assert es[..|es| - 1] == buckets[key];
    if last == key {
      assert key !in init by {
        forall a | 0 <= a < |init| ensures init[a] != key {
          assert init[a] == keys[a];
        }
      }
      BucketFrame(init, buckets, key, es);
    } else {
      assert key in init by {
        var a :| 0 <= a < |keys| && keys[a] == key;
        assert init[a] == key;
      }
      BucketExtend(init, buckets, key, e);
    }
  }

  lemma StepCounts(s: Sorting, acc: Access, v: string)
    requires ValidSorting(s) && WellFormed(acc) && v != ""
    ensures SumReads(SortStep(s, acc, v).pass) + BucketReads(SortStep(s, acc, v).keys, SortStep(s, acc, v).buckets)
            == SumReads(s.pass) + BucketReads(s.keys, s.buckets) + acc.readCount
    ensures SumWrites(SortStep(s, acc, v).pass) + BucketWrites(SortStep(s, acc, v).keys, SortStep(s, acc, v).buckets)
            == SumWrites(s.pass) + BucketWrites(s.keys, s.buckets) + acc.writeCount
  {
    if Bucketed(acc, v) {
      BucketStepCounts(s, acc, v);
    } else {
      var r := SortStep(s, acc, v);
      assert r.pass == s.pass + [acc] && r.keys == s.keys && r.buckets == s.buckets;
      assert (s.pass + [acc])[..|s.pass|] == s.pass;
    }
  }

  lemma BucketStepCounts(s: Sorting, acc: Access, v: string)
    requires ValidSorting(s) && WellFormed(acc) && v != "" && Bucketed(acc, v)
    ensures BucketReads(SortStep(s, acc, v).keys, SortStep(s, acc, v).buckets) == BucketReads(s.keys, s.buckets) + acc.readCount
    ensures BucketWrites(SortStep(s, acc, v).keys, SortStep(s, acc, v).buckets) == BucketWrites(s.keys, s.buckets) + acc.writeCount
  {
    var key, e := KeyOf(acc, v), EntryOf(acc, v);
    assert e.readCount == acc.readCount && e.writeCount == acc.writeCount;
    if key in s.buckets {
      assert SortStep(s, acc, v) == Sorting(s.pass, s.keys, s.buckets[key := s.buckets[key] + [e]]);
      BucketExtend(s.keys, s.buckets, key, e);
    } else {
      assert SortStep(s, acc, v) == Sorting(s.pass, s.keys + [key], s.buckets[key := [e]]);
      NewBucketCounts(s.keys, s.buckets, key, e);
    }
  }

  lemma NewBucketCounts(keys: seq<Key>, buckets: map<Key, seq<Entry>>, key: Key, e: Entry)
    requires forall k :: k in keys ==> k in buckets
    requires key !in keys
    ensures BucketReads(keys + [key], buckets[key := [e]]) == BucketReads(keys, buckets) + e.readCount
    ensures BucketWrites(keys + [key], buckets[key := [e]]) == BucketWrites(keys, buckets) + e.writeCount
  {
    BucketFrame(keys, buckets, key, [e]);
    var ks, bs := keys + [key], buckets[key := [e]];
    assert ks[..|ks| - 1] == keys;
    assert EntryReads([e]) == e.readCount && EntryWrites([e]) == e.writeCount by {
      assert [e][..0] == [];
    }
    assert BucketReads(ks, bs) == BucketReads(keys, bs) + EntryReads(bs[key]);
    assert BucketWrites(ks, bs) == BucketWrites(keys, bs) + EntryWrites(bs[key]);
  }

  /** Sorting loses no read and no write: the pass-through accesses and the buckets hold them all. */
  lemma {:induction false} SortCounts(accs: seq<Access>, v: string)
    requires AllWellFormed(accs) && v != ""
    ensures SumReads(Sort(accs, v).pass) + BucketReads(Sort(accs, v).keys, Sort(accs, v).buckets) == SumReads(accs)
    ensures SumWrites(Sort(accs, v).pass) + BucketWrites(Sort(accs, v).keys, Sort(accs, v).buckets) == SumWrites(accs)
  {
    if accs != [] {
      var init, last := accs[..|accs| - 1], accs[|accs| - 1];
      assert forall q :: 0 <= q < |init| ==> init[q] == accs[q];
      SortCounts(init, v);
      StepCounts(Sort(init, v), last, v);
    }
  }

  /** Merging with counts kept carries every read and write of the buckets. */
  lemma {:induction false} MergeAllKeepsCounts(keys: seq<Key>, buckets: map<Key, seq<Entry>>, lb: int, ub: int)
    requires MergeReady(keys, buckets)
    ensures SumReads(MergeAll(keys, buckets, lb, ub, true)) == BucketReads(keys, buckets)
    ensures SumWrites(MergeAll(keys, buckets, lb, ub, true)) == BucketWrites(keys, buckets)
  {
    if keys != [] {
      var init := keys[..|keys| - 1];
      MergeAllKeepsCounts(init, buckets, lb, ub);
      var t := MergeAll(keys, buckets, lb, ub, true);
      assert t[..|t| - 1] == MergeAll(init, buckets, lb, ub, true);
    }
  }

  /** Merging without counts gives accesses that neither read nor write. */
  lemma {:induction false} MergeAllDropsCounts(keys: seq<Key>, buckets: map<Key, seq<Entry>>, lb: int, ub: int)
    requires MergeReady(keys, buckets)
    ensures SumReads(MergeAll(keys, buckets, lb, ub, false)) == 0
    ensures SumWrites(MergeAll(keys, buckets, lb, ub, false)) == 0
  {
    if keys != [] {
      var init := keys[..|keys| - 1];
      MergeAllDropsCounts(init, buckets, lb, ub);
      var f := MergeAll(keys, buckets, lb, ub, false);
      assert f[..|f| - 1] == MergeAll(init, buckets, lb, ub, false);
    }
  }

  /** The current analyzer's unroll keeps the total reads and writes: each merged access
      carries the sums of its bucket. */
  lemma UnrolledKeepsCounts(accs: seq<Access>, v: string, lb: int, ub: int)
    requires AllWellFormed(accs) && v != ""
    ensures SumReads(Unrolled(accs, v, lb, ub, true)) == SumReads(accs)
    ensures SumWrites(Unrolled(accs, v, lb, ub, true)) == SumWrites(accs)
  {
    var s := Sort(accs, v);
    SortCounts(accs, v);
    MergeAllKeepsCounts(s.keys, s.buckets, lb, ub);
    SumsOfAppend(s.pass, MergeAll(s.keys, s.buckets, lb, ub, true));
  }

  /** The older analyzer's unroll keeps only the counts of the pass-through accesses. */
  lemma UnrolledDropsMergedCounts(accs: seq<Access>, v: string, lb: int, ub: int)
    requires AllWellFormed(accs) && v != ""
    ensures SumReads(Unrolled(accs, v, lb, ub, false)) == SumReads(Untouched(accs, v))
    ensures SumWrites(Unrolled(accs, v, lb, ub, false)) == SumWrites(Untouched(accs, v))
  {
    var s := Sort(accs, v);
    PassThroughIsFilter(accs, v, lb, ub, false);
    MergeAllDropsCounts(s.keys, s.buckets, lb, ub);
    SumsOfAppend(s.pass, MergeAll(s.keys, s.buckets, lb, ub, false));
  }

  // Coverage

  /** The access as executed in the iteration where the loop variable equals t: every
      dimension tied to the loop variable is shifted by t. */
  function Instance(acc: Access, v: string, t: int): Access {
    Access(seq(|acc.index|, k requires 0 <= k < |acc.index| =>
                 if k < |acc.loopvars| && acc.loopvars[k] == v && acc.index[k].Point?
                 then Point(acc.index[k].x + t) else acc.index[k]),
           acc.loopvars, acc.readCount, acc.writeCount)
  }

  /** The loop variable indexes at most one dimension of the access. */
  predicate SingleUse(acc: Access, v: string) {
    forall a, b :: 0 <= a < b < |acc.loopvars| ==> !(acc.loopvars[a] == v && acc.loopvars[b] == v)
  }

  /** Within its own bucket, a looped access's every iteration is covered by the merged access. */
  lemma MergedTouches(acc: Access, v: string, es: seq<Entry>, lb: int, ub: int, keepCounts: bool, t: int, p: seq<int>)
    requires WellFormed(acc) && v != "" && Bucketed(acc, v) && SingleUse(acc, v)
    requires EntryOf(acc, v) in es && lb <= t <= ub
    requires Touches(Instance(acc, v, t), p)
    ensures KeyShape(KeyOf(acc, v))
    ensures Touches(MergeBucket(KeyOf(acc, v), es, lb, ub, keepCounts), p)
  {
    KeyOfShape(acc, v);
    var i := IndexOf(acc.loopvars, v);
    var key, e := KeyOf(acc, v), EntryOf(acc, v);
    var merged := MergeBucket(key, es, lb, ub, keepCounts);
    var n :| 0 <= n < |es| && es[n] == e;
    assert MinOff(es) <= e.offset <= MaxOff(es);
    forall m | 0 <= m < |p| ensures InDim(merged.index[m], p[m]) {
      if m < i {
        DelAt(acc.index, i, m);
        assert merged.index[m] == key.rest[m] == acc.index[m];
      } else if m > i {
        DelAt(acc.index, i, m - 1);
        assert merged.index[m] == key.rest[m - 1] == acc.index[m];
        assert acc.loopvars[m] != v;
      }
    }
  }

  /** A merged access appears in the unrolled working set. */
  lemma MergedInUnrolled(accs: seq<Access>, v: string, lb: int, ub: int, keepCounts: bool, key: Key)
    requires AllWellFormed(accs) && v != "" && key in Sort(accs, v).buckets
    ensures KeyShape(key)
    ensures MergeBucket(key, Sort(accs, v).buckets[key], lb, ub, keepCounts) in Unrolled(accs, v, lb, ub, keepCounts)
  {
    var s := Sort(accs, v);
    var r := Unrolled(accs, v, lb, ub, keepCounts);
    var q :| 0 <= q < |s.keys| && s.keys[q] == key;
    MergeAllAt(s.keys, s.buckets, lb, ub, keepCounts, q);
    assert r[|s.pass| + q] == MergeAll(s.keys, s.buckets, lb, ub, keepCounts)[q];
  }

  /** Soundness of the unroll: every point that any iteration lb <= t <= ub touches through an
      access lies in the unrolled working set, provided the access uses the loop variable in at
      most one dimension. */
  lemma UnrolledCovers(accs: seq<Access>, v: string, lb: int, ub: int, keepCounts: bool, j: int, t: int, p: seq<int>)
    requires AllWellFormed(accs) && v != ""
    requires 0 <= j < |accs| && SingleUse(accs[j], v) && lb <= t <= ub
    requires Touches(Instance(accs[j], v, t), p)
    ensures p in UnionPoints(Unrolled(accs, v, lb, ub, keepCounts))
  {
    if Bucketed(accs[j], v) {
      BucketedCovered(accs, v, lb, ub, keepCounts, j, t, p);
    } else {
      PassThroughCovered(accs, v, lb, ub, keepCounts, j, t, p);
    }
  }

  lemma PassThroughCovered(accs: seq<Access>, v: string, lb: int, ub: int, keepCounts: bool, j: int, t: int, p: seq<int>)
    requires AllWellFormed(accs) && v != ""
    requires 0 <= j < |accs| && !Bucketed(accs[j], v)
    requires Touches(Instance(accs[j], v, t), p)
    ensures p in UnionPoints(Unrolled(accs, v, lb, ub, keepCounts))
  {
    var acc := accs[j];
    var r := Unrolled(accs, v, lb, ub, keepCounts);
    PassThroughIsFilter(accs, v, lb, ub, keepCounts);
    assert Instance(acc, v, t).index == acc.index;
    assert acc in r;
    var q :| 0 <= q < |r| && r[q] == acc;
    UnionMembership(r, p);
  }

  lemma BucketedCovered(accs: seq<Access>, v: string, lb: int, ub: int, keepCounts: bool, j: int, t: int, p: seq<int>)
    requires AllWellFormed(accs) && v != ""
    requires 0 <= j < |accs| && Bucketed(accs[j], v) && SingleUse(accs[j], v) && lb <= t <= ub
    requires Touches(Instance(accs[j], v, t), p)
    ensures p in UnionPoints(Unrolled(accs, v, lb, ub, keepCounts))
  {
    var acc := accs[j];
    var r := Unrolled(accs, v, lb, ub, keepCounts);
    var key, e := KeyOf(acc, v), EntryOf(acc, v);
    assert Contributes(accs, v, j, key, e);
    SortBucketsExactly(accs, v, key, e);
    var es := Sort(accs, v).buckets[key];
    MergedTouches(acc, v, es, lb, ub, keepCounts, t, p);
    MergedInUnrolled(accs, v, lb, ub, keepCounts, key);
    var merged := MergeBucket(key, es, lb, ub, keepCounts);
    var q :| 0 <= q < |r| && r[q] == merged;
    UnionMembership(r, p);
  }

  /** A unit-stride read a[i] over i in [lb, ub] unrolls to the single range [lb, ub], whose
      size is the iteration count. */
  lemma UnitStrideExample(lb: int, ub: int)
    requires lb <= ub
    ensures Unrolled([Access([Point(0)], ["i"], 1, 0)], "i", lb, ub, true) == [Access([Range(lb, ub)], [""], 1, 0)]
    ensures AccessSize(Unrolled([Access([Point(0)], ["i"], 1, 0)], "i", lb, ub, true)) == ub - lb + 1
  {
    UnitStrideMerges(lb, ub);
    RangeSize(lb, ub);
  }

  lemma UnitStrideMerges(lb: int, ub: int)
    ensures Unrolled([Access([Point(0)], ["i"], 1, 0)], "i", lb, ub, true) == [Access([Range(lb, ub)], [""], 1, 0)]
  {
    var key, e := Key(0, [], []), Entry(0, 1, 0);
    UnitStrideSorts();
    UnitStrideBucket(lb, ub);
    assert MergeAll([key], map[key := [e]], lb, ub, true) == [Access([Range(lb, ub)], [""], 1, 0)] by {
      assert [key][..0] == [];
    }
  }

  lemma UnitStrideSorts()
    ensures Sort([Access([Point(0)], ["i"], 1, 0)], "i") == Sorting([], [Key(0, [], [])], map[Key(0, [], []) := [Entry(0, 1, 0)]])
  {
    var acc := Access([Point(0)], ["i"], 1, 0);
    assert [acc][..0] == [];
    assert KeyOf(acc, "i") == Key(0, [], []);
    assert EntryOf(acc, "i") == Entry(0, 1, 0);
  }

  lemma UnitStrideBucket(lb: int, ub: int)
    ensures MergeBucket(Key(0, [], []), [Entry(0, 1, 0)], lb, ub, true) == Access([Range(lb, ub)], [""], 1, 0)
  {
    var e := Entry(0, 1, 0);
    assert [e][..0] == [];
    assert EntryReads([e]) == EntryReads([]) + 1;
    assert EntryWrites([e]) == EntryWrites([]) + 0;
  }

  /** A one-dimensional range [lb, ub] covers ub - lb + 1 points. */
  lemma RangeSize(lb: int, ub: int)
    requires lb <= ub
    ensures AccessSize([Access([Range(lb, ub)], [""], 1, 0)]) == ub - lb + 1
  {
    var merged := Access([Range(lb, ub)], [""], 1, 0);
    SingleAccessSize(merged);
    var box := MakeBox(merged);
    assert |box| == 1 && box[0] == Interval(lb, ub + 1);
    assert Volume(box) == Width(box[0]) * Volume(box[1..]);
    assert box[1..] == [];
  }
}
