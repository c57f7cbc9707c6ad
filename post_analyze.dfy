/** The current analyzer's working-set and traffic model (tools/post/analyze.py): load/store
    classification, the memoised working set, traffic regions, and the all-or-nothing cache
    reuse decision of a loop. */
module PostAnalyze {
  import opened Wrappers
  import opened Program
  import opened Box
  import opened Conditions
  import opened Counters
  import opened Unroll
  import opened Seqs

  // Load/store classification

  datatype AccessKind = Ld | St | Ls

  predicate SomeReads(accs: seq<Access>) {
    exists k :: 0 <= k < |accs| && accs[k].readCount > 0
  }

  predicate SomeWrites(accs: seq<Access>) {
    exists k :: 0 <= k < |accs| && accs[k].writeCount > 0
  }

  /** The (read, written) flags accumulated over the accesses in order. */
  function Flags(accs: seq<Access>): (f: (bool, bool))
    ensures f.0 <==> SomeReads(accs)
    ensures f.1 <==> SomeWrites(accs)
  {
    if accs == [] then (false, false)
    else
      var init, last := accs[..|accs| - 1], accs[|accs| - 1];
      var f := Flags(init);
      assert forall k :: 0 <= k < |init| ==> init[k] == accs[k];
      (f.0 || last.readCount > 0, f.1 || last.writeCount > 0)
  }

  /** The access type of a region: loads only, stores only, or both; an error when nothing
      is read or written. */
  function AccessTypeOf(accs: seq<Access>): (r: Result<AccessKind>)
    ensures r == Ok(Ld) <==> SomeReads(accs) && !SomeWrites(accs)
    ensures r == Ok(St) <==> !SomeReads(accs) && SomeWrites(accs)
    ensures r == Ok(Ls) <==> SomeReads(accs) && SomeWrites(accs)
    ensures r.Err? <==> !SomeReads(accs) && !SomeWrites(accs)
    ensures r.Err? ==> r.error == NoReadsOrWrites
  {
    var (rd, wr) := Flags(accs);
    if !rd && !wr then Err(NoReadsOrWrites)
    else if rd && wr then Ok(Ls)
    else if rd then Ok(Ld)
    else Ok(St)
  }

  /** get_access_type: the flags are updated access by access. */
  method GetAccessType(accs: seq<Access>) returns (r: Result<AccessKind>)
    ensures r == AccessTypeOf(accs)
  {
    var rd, wr := false, false;
    for i := 0 to |accs|
      invariant (rd, wr) == Flags(accs[..i])
    {
      PrefixPrefix(accs, i, i + 1);
      rd, wr := rd || accs[i].readCount > 0, wr || accs[i].writeCount > 0;
    }
    PrefixFull(accs);
    if !rd && !wr {
      return Err(NoReadsOrWrites);
    }
    r := if rd && wr then Ok(Ls) else if rd then Ok(Ld) else Ok(St);
  }

  // The machine description

  /** The machine model: a table with an entry `<type>_byte_n` per word type, `cache_kbytes`,
      and a scale factor `<tag>_sf` per access type. */
  type Machine = map<string, real>

  predicate Describes(machine: Machine, elemType: string) {
    && elemType + "_byte_n" in machine
    && "cache_kbytes" in machine
    && "ld_sf" in machine && "st_sf" in machine && "ls_sf" in machine
  }

  /** The cache size in bytes, from the machine file's size in kilobytes. */
  function CacheByteN(machine: Machine): (r: real)
    requires "cache_kbytes" in machine
    ensures r / 1024.0 == machine["cache_kbytes"]
  {
    machine["cache_kbytes"] * 1024.0
  }

  /** The bytes moved per word by each kind of access. */
  datatype AccByteN = AccByteN(ld: real, st: real, ls: real) {
    function Get(k: AccessKind): real {
      match k
      case Ld => ld
      case St => st
      case Ls => ls
    }
  }

  function MakeAccByteN(machine: Machine, elementByteN: real): (r: AccByteN)
    requires "ld_sf" in machine && "st_sf" in machine && "ls_sf" in machine
    ensures r.Get(Ld) == machine["ld_sf"] * elementByteN
    ensures r.Get(St) == machine["st_sf"] * elementByteN
    ensures r.Get(Ls) == machine["ls_sf"] * elementByteN
  {
    AccByteN(machine["ld_sf"] * elementByteN, machine["st_sf"] * elementByteN, machine["ls_sf"] * elementByteN)
  }

  // The working set

  class WorkingSet {
    const name: string
    const elemType: string
    const wordByteN: real
    var accesses: seq<Access>
    /** The memoised size; a memo of 0 counts as absent, as a falsy value does. */
    var sizeMemo: Option<nat>

    ghost predicate Valid()
      reads this
    {
      && AllWellFormed(accesses)
      && (sizeMemo.Some? ==> |accesses| > 0 && sizeMemo.value == AccessSize(accesses))
    }

    /** The working set of an array: its streamed accesses, with the word size of its type. */
    constructor FromArray(arr: ArrayRef, machine: Machine)
      requires AllWellFormed(arr.accesses) && arr.elemType + "_byte_n" in machine
      ensures Valid()
      ensures name == arr.name && elemType == arr.elemType && wordByteN == machine[arr.elemType + "_byte_n"]
      ensures accesses == NonStateAccesses(arr.accesses) && sizeMemo == None
    {
      name, elemType := arr.name, arr.elemType;
      NonStateWellFormed(arr.accesses);
      accesses := NonStateAccesses(arr.accesses);
      wordByteN := machine[arr.elemType + "_byte_n"];
      sizeMemo := None;
    }

    /** The shallow copy: same identity, no accesses. */
    constructor ShallowCopy(other: WorkingSet)
      ensures Valid()
      ensures name == other.name && elemType == other.elemType && wordByteN == other.wordByteN
      ensures accesses == [] && sizeMemo == None
    {
      name, elemType, wordByteN := other.name, other.elemType, other.wordByteN;
      accesses, sizeMemo := [], None;
    }

    function Words(): nat
      reads this
      requires |accesses| > 0
    {
      AccessSize(accesses)
    }

    /** The size, computed at most once between changes. */
    method Size() returns (r: nat)
      requires Valid() && |accesses| > 0
      modifies this`sizeMemo
      ensures Valid() && accesses == old(accesses)
      ensures r == Words() && sizeMemo == Some(r)
    {
      if sizeMemo.None? || sizeMemo.value == 0 {
        sizeMemo := Some(AccessSize(accesses));
      }
      r := sizeMemo.value;
    }

    method Bytes() returns (r: real)
      requires Valid() && |accesses| > 0
      modifies this`sizeMemo
      ensures Valid() && accesses == old(accesses) && sizeMemo.Some?
      ensures r == ViewBytes(WsView(accesses, wordByteN))
    {
      var n := Size();
      r := n as real * wordByteN;
    }

    /** Adds one access; regions may overlap, so the memo is dropped. */
    method Consume(acc: Access)
      requires AllWellFormed(accesses) && WellFormed(acc)
      modifies this
      ensures AllWellFormed(accesses) && sizeMemo == None
      ensures accesses == old(accesses) + [acc]
    {
      accesses := accesses + [acc];
      sizeMemo := None;
    }

    /** `+=`: appends every access of the other working set of the same array. */
    method AddFrom(other: WorkingSet)
      requires other != this && other.name == name && other.elemType == elemType
      requires Valid() && other.Valid()
      modifies this
      ensures Valid()
      ensures accesses == old(accesses) + other.accesses
      ensures sizeMemo == if other.accesses == [] then old(sizeMemo) else None
    {
      for i := 0 to |other.accesses|
        invariant AllWellFormed(accesses) && (i == 0 ==> Valid())
        invariant accesses == old(accesses) + other.accesses[..i]
        invariant sizeMemo == if i == 0 then old(sizeMemo) else None
      {
        PrefixSnoc(other.accesses, i);
        Consume(other.accesses[i]);
      }
      PrefixFull(other.accesses);
    }

    /** Unrolls the working set along the loop, merging the accesses along the loop dimension. */
    method Loop(loop: LoopNode) returns (result: WorkingSet)
      requires Valid() && loop.loopvar != ""
      ensures fresh(result) && result.Valid()
      ensures result.name == name && result.elemType == elemType && result.wordByteN == wordByteN
      ensures result.accesses == Unrolled(accesses, loop.loopvar, loop.lb, loop.ub, true)
      ensures result.sizeMemo == None
    {
      result := new WorkingSet.ShallowCopy(this);
      var keys, buckets := SortInto(result, loop.loopvar);
      MergeInto(result, keys, buckets, loop.lb, loop.ub);
    }

    /** The first loop of the unroll: accesses without the loop variable go straight to the
        result, the others into the bucket of their key. */
    method SortInto(result: WorkingSet, v: string) returns (keys: seq<Key>, buckets: map<Key, seq<Entry>>)
      requires Valid() && v != "" && result != this
      requires result.accesses == [] && result.sizeMemo == None
      modifies result
      ensures AllWellFormed(result.accesses) && result.sizeMemo == None
      ensures Sorting(result.accesses, keys, buckets) == Sort(accesses, v)
    {
      keys, buckets := [], map[];
      for j := 0 to |accesses|
        invariant AllWellFormed(result.accesses) && result.sizeMemo == None
        invariant Sorting(result.accesses, keys, buckets) == Sort(accesses[..j], v)
      {
        var acc := accesses[j];
        SortSnoc(accesses, j, v);
        if v !in acc.loopvars {
          result.Consume(acc);
        } else {
          var i := IndexOf(acc.loopvars, v);
          var key := Key(i, Del(acc.index, i), Del(acc.loopvars, i));
          var e := Entry(acc.index[i].x, acc.readCount, acc.writeCount);
          if key !in buckets {
            keys := keys + [key];
            buckets := buckets[key := [e]];
          } else {
            buckets := buckets[key := buckets[key] + [e]];
          }
        }
      }
      PrefixFull(accesses);
    }

    /** The second loop of the unroll: one access per bucket, covering its offsets over the
        loop's range and carrying the bucket's read and write sums. */
    static method MergeInto(result: WorkingSet, keys: seq<Key>, buckets: map<Key, seq<Entry>>, lb: int, ub: int)
      requires AllWellFormed(result.accesses) && result.sizeMemo == None && MergeReady(keys, buckets)
      modifies result
      ensures AllWellFormed(result.accesses) && result.sizeMemo == None
      ensures result.accesses == old(result.accesses) + MergeAll(keys, buckets, lb, ub, true)
    {
      ghost var all := MergeAll(keys, buckets, lb, ub, true);
      for j := 0 to |keys|
        invariant AllWellFormed(result.accesses) && result.sizeMemo == None
        invariant result.accesses == old(result.accesses) + all[..j]
      {
        MergeAllAt(keys, buckets, lb, ub, true, j);
        result.Consume(MergeBucket(keys[j], buckets[keys[j]], lb, ub, true));
        PrefixSnoc(all, j);
      }
      PrefixFull(all);
    }
  }

  // Traffic regions

  /** The value of a traffic region: its accesses, their size, and how often they are moved. */
  datatype RegionVal = RegionVal(accesses: seq<Access>, size: nat, count: real)

  /** The words a region moves: its distinct points, once per count. */
  function RegionWords(r: RegionVal): (w: real)
    ensures r.count == 1.0 ==> w == r.size as real
  {
    r.size as real * r.count
  }

  /** The total size of the regions: with AppendWords, the sum that is 0 for no region and
      the region's size for one. */
  function SumSize(vs: seq<RegionVal>): (n: nat)
    ensures vs == [] ==> n == 0
    ensures |vs| == 1 ==> n == vs[0].size
  {
    if vs == [] then 0
    else
      assert |vs| == 1 ==> vs[..|vs| - 1] == [];
      SumSize(vs[..|vs| - 1]) + vs[|vs| - 1].size
  }

  /** The total words of the regions: with AppendWords, the sum that is 0 for no region and
      the region's words for one. */
  function SumWords(vs: seq<RegionVal>): (w: real)
    ensures vs == [] ==> w == 0.0
    ensures |vs| == 1 ==> w == RegionWords(vs[0])
  {
    if vs == [] then 0.0
    else
      assert |vs| == 1 ==> vs[..|vs| - 1] == [];
      SumWords(vs[..|vs| - 1]) + RegionWords(vs[|vs| - 1])
  }

  /** The bytes a region moves: its words times the byte cost of its access type. */
  function RegionBytes(v: RegionVal, accByteN: AccByteN): (b: Result<real>)
    ensures b.Ok? <==> SomeReads(v.accesses) || SomeWrites(v.accesses)
    ensures b.Err? ==> b.error == NoReadsOrWrites
    ensures SomeReads(v.accesses) && !SomeWrites(v.accesses) ==> b.Ok? && b.value == RegionWords(v) * accByteN.ld
  {
    var t := AccessTypeOf(v.accesses);
    if t.Err? then Err(t.error)
    else
      var perWord := accByteN.Get(t.value);
      assert t.value == Ld ==> perWord == accByteN.ld;
      Ok(RegionWords(v) * perWord)
  }

  /** Adding a region's bytes to a running sum; the first error wins. */
  function AddBytes(b: Result<real>, r: Result<real>): Result<real> {
    if b.Err? then b else if r.Err? then r else Ok(b.value + r.value)
  }

  /** The bytes of the regions, region by region; the first region without an access type
      makes the sum fail. */
  function SumBytes(vs: seq<RegionVal>, accByteN: AccByteN): (b: Result<real>)
    ensures b.Ok? <==> forall k :: 0 <= k < |vs| ==> AccessTypeOf(vs[k].accesses).Ok?
    ensures |vs| == 1 ==> b == RegionBytes(vs[0], accByteN)
  {
    if vs == [] then Ok(0.0)
    else
      assert |vs| == 1 ==> vs[..|vs| - 1] == [];
      AddBytes(SumBytes(vs[..|vs| - 1], accByteN), RegionBytes(vs[|vs| - 1], accByteN))
  }

  /** `a` is the byte count `b` scaled by `n`: the same error, or `n` times the value. */
  predicate ScaledBy(a: Result<real>, b: Result<real>, n: real) {
    (a.Err? <==> b.Err?) && (b.Err? ==> a == b) && (b.Ok? ==> a.value == b.value * n)
  }

  function ScaleRegion(v: RegionVal, n: real): RegionVal {
    v.(count := v.count * n)
  }

  function ScaleAll(vs: seq<RegionVal>, n: real): seq<RegionVal> {
    seq(|vs|, k requires 0 <= k < |vs| => ScaleRegion(vs[k], n))
  }

  lemma ScaleAllInit(vs: seq<RegionVal>, n: real)
    requires vs != []
    ensures ScaleAll(vs, n)[..|vs| - 1] == ScaleAll(vs[..|vs| - 1], n)
    ensures ScaleAll(vs, n)[|vs| - 1] == ScaleRegion(vs[|vs| - 1], n)
  {
    var sv, si := ScaleAll(vs, n), ScaleAll(vs[..|vs| - 1], n);
    assert forall k :: 0 <= k < |si| ==> sv[..|vs| - 1][k] == si[k];
  }

  lemma MulRegroup(a: real, b: real, n: real)
    ensures a * (b * n) == (a * b) * n
  {
  }

  /** Scaling every count scales the words moved. */
  lemma {:induction false} ScaleWords(vs: seq<RegionVal>, n: real)
    ensures SumWords(ScaleAll(vs, n)) == SumWords(vs) * n
    ensures SumSize(ScaleAll(vs, n)) == SumSize(vs)
  {
    if vs != [] {
      var init, last := vs[..|vs| - 1], vs[|vs| - 1];
      ScaleWords(init, n);
      var sv := ScaleAll(vs, n);
      ScaleAllInit(vs, n);
      MulRegroup(last.size as real, last.count, n);
      MulDistributes(SumWords(init), RegionWords(last), n);
    }
  }

  /** Scaling a region's count scales its bytes and keeps its access type. */
  lemma ScaleRegionBytes(v: RegionVal, n: real, accByteN: AccByteN)
    ensures ScaledBy(RegionBytes(ScaleRegion(v, n), accByteN), RegionBytes(v, accByteN), n)
  {
    var t := AccessTypeOf(v.accesses);
    if t.Ok? {
      var perWord := accByteN.Get(t.value);
      MulRegroup(v.size as real, v.count, n);
      MulRegroup(v.size as real * v.count, n, perWord);
      MulRegroup(v.size as real * v.count, perWord, n);
    }
  }

  lemma AddScaledBytes(a: Result<real>, b: Result<real>, c: Result<real>, d: Result<real>, n: real)
    requires ScaledBy(a, b, n) && ScaledBy(c, d, n)
    ensures ScaledBy(AddBytes(a, c), AddBytes(b, d), n)
  {
    if b.Ok? && d.Ok? {
      MulDistributes(b.value, d.value, n);
    }
  }

  /** Scaling every count scales the bytes moved and keeps every access type, so the same
      region fails first. */
  lemma {:induction false} ScaleBytes(vs: seq<RegionVal>, n: real, accByteN: AccByteN)
    ensures ScaledBy(SumBytes(ScaleAll(vs, n), accByteN), SumBytes(vs, accByteN), n)
  {
    if vs != [] {
      var init, last := vs[..|vs| - 1], vs[|vs| - 1];
      ScaleBytes(init, n, accByteN);
      ScaleAllInit(vs, n);
      ScaleRegionBytes(last, n, accByteN);
      AddScaledBytes(SumBytes(ScaleAll(init, n), accByteN), SumBytes(init, accByteN),
                     RegionBytes(ScaleRegion(last, n), accByteN), RegionBytes(last, accByteN), n);
    }
  }

  /** Concatenating lists of regions adds their sizes and words. */
  lemma {:induction false} AppendWords(a: seq<RegionVal>, b: seq<RegionVal>)
    ensures SumWords(a + b) == SumWords(a) + SumWords(b)
    ensures SumSize(a + b) == SumSize(a) + SumSize(b)
    decreases |b|
  {
    if b == [] {
      assert a + b == a;
    } else {
      AppendWords(a, b[..|b| - 1]);
      assert (a + b)[..|a + b| - 1] == a + b[..|b| - 1];
    }
  }

  /** The values of regions after the list that the `shared` ones were built over grew to
      `accs`. A shared region sees the new accesses, but keeps the size it measured when it
      was built. */
  function Regrown(vs: seq<RegionVal>, shared: seq<bool>, accs: seq<Access>): (r: seq<RegionVal>)
    requires |shared| == |vs|
    ensures |r| == |vs|
  {
    seq(|vs|, k requires 0 <= k < |vs| => if shared[k] then vs[k].(accesses := accs) else vs[k])
  }

  lemma RegrownInit(vs: seq<RegionVal>, shared: seq<bool>, accs: seq<Access>)
    requires |shared| == |vs| && vs != []
    ensures Regrown(vs, shared, accs)[..|vs| - 1] == Regrown(vs[..|vs| - 1], shared[..|vs| - 1], accs)
  {
    var g, gi := Regrown(vs, shared, accs), Regrown(vs[..|vs| - 1], shared[..|vs| - 1], accs);
    assert forall k :: 0 <= k < |gi| ==> g[..|vs| - 1][k] == gi[k];
  }

  /** A shared list that grows changes no size and no word count: the sizes were fixed when
      the regions were built. */
  lemma {:induction false} RegrownWords(vs: seq<RegionVal>, shared: seq<bool>, accs: seq<Access>)
    requires |shared| == |vs|
    ensures SumWords(Regrown(vs, shared, accs)) == SumWords(vs)
    ensures SumSize(Regrown(vs, shared, accs)) == SumSize(vs)
  {
    if vs != [] {
      RegrownWords(vs[..|vs| - 1], shared[..|vs| - 1], accs);
      RegrownInit(vs, shared, accs);
    }
  }

  /** It can change the bytes: a region that only loads, grown by the accesses of a sibling
      that stores, is then moved at the load-store rate. */
  lemma GrownByStoreIsLoadStore(v: RegionVal, more: seq<Access>, accByteN: AccByteN)
    requires SomeReads(v.accesses) && SomeWrites(more)
    ensures RegionBytes(v.(accesses := v.accesses + more), accByteN) == Ok(RegionWords(v) * accByteN.ls)
  {
    var accs := v.accesses + more;
    var i :| 0 <= i < |v.accesses| && v.accesses[i].readCount > 0;
    var j :| 0 <= j < |more| && more[j].writeCount > 0;
    assert accs[i] == v.accesses[i] && accs[|v.accesses| + j] == more[j];
    var g := v.(accesses := accs);
    assert AccessTypeOf(g.accesses) == Ok(Ls);
    assert RegionWords(g) == RegionWords(v) && accByteN.Get(Ls) == accByteN.ls;
    assert v.(accesses := v.accesses + more) == g;
    assert RegionBytes(g, accByteN).value == RegionWords(v) * accByteN.ls;
  }

  /** A traffic region. Its accesses are either a list of its own or the list of the working
      set it was built over, which it shares: when that working set grows, so do the region's
      accesses. */
  class TrafficRegion {
    const ownAccesses: seq<Access>
    const over: WorkingSet?
    /** The size is fixed when the region is built. */
    const size: nat
    var count: real

    constructor(accs: seq<Access>, count0: real)
      requires |accs| > 0
      ensures over == null && Accesses() == accs && size == AccessSize(accs) && count == count0
    {
      ownAccesses, over, size, count := accs, null, AccessSize(accs), count0;
    }

    /** A region over the list of the working set `w`. */
    constructor Over(w: WorkingSet, count0: real)
      requires |w.accesses| > 0
      ensures over == w && Accesses() == w.accesses && size == AccessSize(w.accesses) && count == count0
    {
      ownAccesses, over, size, count := [], w, AccessSize(w.accesses), count0;
    }

    function Accesses(): seq<Access>
      reads (if over == null then {} else {over})`accesses
    {
      if over == null then ownAccesses else over.accesses
    }

    function Value(): RegionVal
      reads this, (if over == null then {} else {over})`accesses
    {
      RegionVal(Accesses(), size, count)
    }

    /** `*=`: scales the count in place. */
    method MulBy(n: real)
      modifies this
      ensures Value() == ScaleRegion(old(Value()), n)
    {
      count := count * n;
    }
  }

  /** The working sets whose lists some of the regions were built over. */
  function Sources(rs: seq<TrafficRegion>): set<WorkingSet> {
    set r | r in rs && r.over != null :: r.over
  }

  /** Which of the regions were built over the list of `w`. */
  function SharedWith(rs: seq<TrafficRegion>, w: WorkingSet): (f: seq<bool>)
    ensures |f| == |rs| && forall k :: 0 <= k < |rs| ==> (f[k] <==> rs[k].over == w)
  {
    seq(|rs|, k requires 0 <= k < |rs| => rs[k].over == w)
  }

  lemma SharedWithAppend(a: seq<TrafficRegion>, b: seq<TrafficRegion>, w: WorkingSet)
    ensures SharedWith(a + b, w) == SharedWith(a, w) + SharedWith(b, w)
  {
    assert forall k :: 0 <= k < |a + b| ==> SharedWith(a + b, w)[k] == (SharedWith(a, w) + SharedWith(b, w))[k];
  }

  function RegionVals(rs: seq<TrafficRegion>): (vs: seq<RegionVal>)
    reads rs, Sources(rs)`accesses
    ensures |vs| == |rs|
  {
    if rs == [] then [] else RegionVals(rs[..|rs| - 1]) + [rs[|rs| - 1].Value()]
  }

  lemma {:induction false} RegionValsAt(rs: seq<TrafficRegion>, k: int)
    requires 0 <= k < |rs|
    ensures RegionVals(rs)[k] == rs[k].Value()
    decreases |rs|
  {
    if k < |rs| - 1 {
      RegionValsAt(rs[..|rs| - 1], k);
    }
  }

  lemma RegionValsAppend(a: seq<TrafficRegion>, b: seq<TrafficRegion>)
    ensures RegionVals(a + b) == RegionVals(a) + RegionVals(b)
  {
    forall k | 0 <= k < |a + b| ensures RegionVals(a + b)[k] == (RegionVals(a) + RegionVals(b))[k] {
      RegionValsAt(a + b, k);
      if k < |a| { RegionValsAt(a, k); } else { RegionValsAt(b, k - |a|); }
    }
  }

  predicate Distinct(rs: seq<TrafficRegion>) {
    forall a, b :: 0 <= a < b < |rs| ==> rs[a] != rs[b]
  }

  lemma DistinctAppend(a: seq<TrafficRegion>, b: seq<TrafficRegion>)
    requires Distinct(a) && Distinct(b) && forall r :: r in b ==> r !in a
    ensures Distinct(a + b)
  {
    forall i, j | 0 <= i < j < |a + b| ensures (a + b)[i] != (a + b)[j] {
      if i < |a| <= j {
        assert (a + b)[j] in b;
      }
    }
  }

  /** The value of each region of a list is its entry in the list's values. */
  lemma RegionValsEach(rs: seq<TrafficRegion>)
    ensures forall k :: 0 <= k < |rs| ==> RegionVals(rs)[k] == rs[k].Value()
  {
    forall k | 0 <= k < |rs| ensures RegionVals(rs)[k] == rs[k].Value() {
      RegionValsAt(rs, k);
    }
  }

  /** Scales the count of every region of a list of distinct regions in place. */
  method ScaleRegions(rs: seq<TrafficRegion>, n: real)
    requires Distinct(rs)
    modifies set r | r in rs
    ensures RegionVals(rs) == ScaleAll(old(RegionVals(rs)), n)
  {
    ghost var before := RegionVals(rs);
    forall k | 0 <= k < |rs| ensures before[k] == rs[k].Value() {
      RegionValsAt(rs, k);
    }
    for i := 0 to |rs|
      invariant forall k :: 0 <= k < i ==> rs[k].Value() == ScaleRegion(before[k], n)
      invariant forall k :: i <= k < |rs| ==> rs[k].Value() == before[k]
    {
      rs[i].MulBy(n);
    }
    forall k | 0 <= k < |rs| ensures RegionVals(rs)[k] == ScaleAll(before, n)[k] {
      RegionValsAt(rs, k);
    }
  }

  /** What a working set contributes to the sibling sum: its accesses and word size. */
  datatype WsView = WsView(accesses: seq<Access>, wordByteN: real)

  predicate AllNonEmpty(views: seq<WsView>) {
    forall k :: 0 <= k < |views| ==> |views[k].accesses| > 0
  }

  /** The bytes of one working set: its words, each `wordByteN` bytes. */
  function ViewBytes(v: WsView): real
    requires |v.accesses| > 0
  {
    AccessSize(v.accesses) as real * v.wordByteN
  }

  function SumReals(xs: seq<real>): real {
    if xs == [] then 0.0 else SumReals(xs[..|xs| - 1]) + xs[|xs| - 1]
  }

  function ViewsBytes(views: seq<WsView>): (r: seq<real>)
    requires AllNonEmpty(views)
  {
    seq(|views|, k requires 0 <= k < |views| => ViewBytes(views[k]))
  }

  /** The bytes of the working sets, summed in order. */
  function SumWsBytes(views: seq<WsView>): real
    requires AllNonEmpty(views)
  {
    SumReals(ViewsBytes(views))
  }

  function WsViews(wss: seq<WorkingSet>): (r: seq<WsView>)
    reads wss
    ensures |r| == |wss|
    ensures forall k :: 0 <= k < |wss| ==> r[k] == WsView(wss[k].accesses, wss[k].wordByteN)
  {
    seq(|wss|, k requires 0 <= k < |wss| reads wss => WsView(wss[k].accesses, wss[k].wordByteN))
  }

  /** The bytes of a list of working sets, for one iteration; each working set remembers its
      size. */
  method SumWsBytesOf(wss: seq<WorkingSet>) returns (total: real)
    requires forall k :: 0 <= k < |wss| ==> wss[k].Valid() && |wss[k].accesses| > 0
    modifies wss`sizeMemo
    ensures forall k :: 0 <= k < |wss| ==> wss[k].Valid() && wss[k].accesses == old(wss[k].accesses)
    ensures AllNonEmpty(old(WsViews(wss))) && total == SumWsBytes(old(WsViews(wss)))
  {
    ghost var views := WsViews(wss);
    ghost var bytes := ViewsBytes(views);
    total := 0.0;
    for k := 0 to |wss|
      invariant forall q :: 0 <= q < |wss| ==> wss[q].Valid() && wss[q].accesses == views[q].accesses
      invariant total == SumReals(bytes[..k])
    {
      PrefixPrefix(bytes, k, k + 1);
      var b := wss[k].Bytes();
      total := total + b;
    }
    PrefixFull(bytes);
  }

  /** The working sets of a list of traffic objects. */
  function WorkingSets(siblings: seq<Traffic>): (r: seq<WorkingSet>)
    reads siblings
    ensures |r| == |siblings| && forall k :: 0 <= k < |siblings| ==> r[k] == siblings[k].ws
  {
    seq(|siblings|, k requires 0 <= k < |siblings| reads siblings => siblings[k].ws)
  }

  /** The reuse report of a loop: its line, the summed working-set bytes of the siblings, the
      cache size, and whether the working set fits. */
  datatype ReuseReport = ReuseReport(linenum: int, wsBytes: real, cacheBytes: real, fits: bool)

  /** The cache test: a working set equal to the cache still fits. */
  predicate Fits(wsBytes: real, cacheBytes: real): (b: bool)
    ensures b <==> cacheBytes - wsBytes >= 0.0
  {
    wsBytes <= cacheBytes
  }

  /** The number of blocks of the loop: its iterations over those of the blocked loop. */
  function NumBlocks(loop: LoopNode, blockLoop: LoopNode): (r: real)
    requires blockLoop.IterN() != 0
    ensures r * blockLoop.IterN() as real == loop.IterN() as real
  {
    loop.IterN() as real / blockLoop.IterN() as real
  }

  /** The number of blocks of all enclosing loops, times the blocks of this one. */
  function BlockCount(wsBlockN: real, loop: LoopNode, blockLoop: LoopNode): (r: real)
    requires blockLoop.IterN() != 0
    ensures wsBlockN == 1.0 ==> r == NumBlocks(loop, blockLoop)
    ensures wsBlockN == 0.0 ==> r == 0.0
  {
    wsBlockN * NumBlocks(loop, blockLoop)
  }

  /** The regions of a loop's traffic: when the working set fits, one region over the unrolled
      blocked working set, counted once per block and weighted by the loop's conditions;
      otherwise the per-iteration regions, each counted once per iteration. */
  function LoopedRegions(vals: seq<RegionVal>, unrolled: seq<Access>, blockN: real, loop: LoopNode,
                         chk: CondsChecker, fits: bool): (r: Result<seq<RegionVal>>)
    requires fits ==> |unrolled| > 0
    ensures !fits ==> r.Ok? && |r.value| == |vals|
    ensures fits ==> (r.Ok? <==> Call(chk, loop.conds).Ok?) && (r.Ok? ==> |r.value| == 1)
  {
    if fits then
      match Call(chk, loop.conds)
      case Err(e) => Err(e)
      case Ok(p) => Ok(ScaleAll([RegionVal(unrolled, AccessSize(unrolled), blockN)], p))
    else Ok(ScaleAll(vals, loop.IterN() as real))
  }

  /** Which regions of a loop's traffic share its new working set's list: the one reuse
      region, or none of the repeated ones. */
  function LoopedShares(n: nat, fits: bool): (f: seq<bool>)
    ensures |f| == (if fits then 1 else n)
  {
    if fits then [true] else seq(n, k => false)
  }

  /** Regions that existed before a working set was built were not built over it. */
  twostate lemma NoneShareNew(rs: seq<TrafficRegion>, new w: WorkingSet)
    requires fresh(w)
    ensures SharedWith(rs, w) == LoopedShares(|rs|, false)
  {
    forall k | 0 <= k < |rs| ensures rs[k].over != w {
      assert old(allocated(rs[k].over));
    }
  }

  class Traffic {
    const name: string
    const elemType: string
    const elementByteN: real
    const accByteN: AccByteN
    const cacheByteN: real
    const condsChk: CondsChecker
    var regions: seq<TrafficRegion>
    var ws: WorkingSet
    var wsBlockN: real

    ghost predicate Valid()
      reads this, ws
    {
      ws.Valid() && |ws.accesses| > 0 && ws.name == name && ws.elemType == elemType && Distinct(regions)
    }

    function Value(): seq<RegionVal>
      reads this, regions, Sources(regions)`accesses
    {
      RegionVals(regions)
    }

    function Size(): (n: nat)
      reads this, regions, Sources(regions)`accesses
      ensures |regions| == 1 ==> n == Value()[0].size
    {
      SumSize(Value())
    }

    function Words(): (w: real)
      reads this, regions, Sources(regions)`accesses
      ensures |regions| == 1 ==> w == RegionWords(Value()[0])
    {
      SumWords(Value())
    }

    function Bytes(): (b: Result<real>)
      reads this, regions, Sources(regions)`accesses
      ensures |regions| == 1 ==> b == RegionBytes(Value()[0], accByteN)
    {
      SumBytes(Value(), accByteN)
    }

    /** Which regions were built over this traffic's working-set list, and so grow with it. */
    function SharesWs(): seq<bool>
      reads this
    {
      SharedWith(regions, ws)
    }

    /** The traffic of an array in a block executed with probability `condsSat`: one region
        over its streamed accesses, and their working set. */
    constructor FromArray(arr: ArrayRef, machine: Machine, chk: CondsChecker, condsSat: real)
      requires AllWellFormed(arr.accesses) && !OnlyStateVars(arr) && Describes(machine, arr.elemType)
      ensures Valid() && fresh(ws) && |regions| == 1 && fresh(regions[0])
      ensures name == arr.name && elemType == arr.elemType && condsChk == chk
      ensures elementByteN == machine[arr.elemType + "_byte_n"]
      ensures accByteN == MakeAccByteN(machine, elementByteN) && cacheByteN == CacheByteN(machine)
      ensures Value() == [RegionVal(NonStateAccesses(arr.accesses), AccessSize(NonStateAccesses(arr.accesses)), condsSat)]
      ensures ws.accesses == NonStateAccesses(arr.accesses) && wsBlockN == 1.0
      ensures ws.wordByteN == elementByteN && ws.sizeMemo == None && SharesWs() == [false]
    {
      var accs := NonStateAccesses(arr.accesses);
      var region := new TrafficRegion(accs, condsSat);
      var w := new WorkingSet.FromArray(arr, machine);
      name, elemType, condsChk := arr.name, arr.elemType, chk;
      elementByteN := machine[arr.elemType + "_byte_n"];
      accByteN := MakeAccByteN(machine, machine[arr.elemType + "_byte_n"]);
      cacheByteN := CacheByteN(machine);
      regions, ws, wsBlockN := [region], w, 1.0;
      new;
      assert [region][..0] == [];
    }

    /** A copy of the identity and machine data of `from`, with the given regions and working set. */
    constructor Looped(from: Traffic, w: WorkingSet, blockN: real, rs: seq<TrafficRegion>)
      ensures name == from.name && elemType == from.elemType && elementByteN == from.elementByteN
      ensures accByteN == from.accByteN && cacheByteN == from.cacheByteN && condsChk == from.condsChk
      ensures regions == rs && ws == w && wsBlockN == blockN
    {
      name, elemType, elementByteN := from.name, from.elemType, from.elementByteN;
      accByteN, cacheByteN, condsChk := from.accByteN, from.cacheByteN, from.condsChk;
      regions, ws, wsBlockN := rs, w, blockN;
    }

    /** `*=`: scales every region's count in place. */
    method MulBy(n: real)
      requires Valid()
      modifies regions
      ensures Valid()
      ensures Value() == ScaleAll(old(Value()), n)
    {
      ScaleRegions(regions, n);
    }

    /** `+=`: merges the working sets and appends the other's regions without merging them. */
    method AddFrom(other: Traffic)
      requires Valid() && other.Valid()
      requires other.name == name && other.elemType == elemType
      requires other.ws != ws && forall r :: r in other.regions ==> r !in regions
      modifies this, ws
      ensures Valid() && ws == old(ws)
      ensures regions == old(regions) + other.regions
      ensures ws.accesses == old(ws.accesses) + other.ws.accesses
      ensures SharesWs() == old(SharesWs()) + SharedWith(other.regions, ws)
      ensures Value() == Regrown(old(Value()), old(SharesWs()), ws.accesses) + other.Value()
    {
      GrowWs(other);
      ghost var grown := Value();
      label mid:
      AppendRegions(other.regions);
      assert forall x :: x in Sources(old(regions)) ==> unchanged@mid(x`accesses);
      assert RegionVals(old(regions)) == grown;
      RegionValsAppend(old(regions), other.regions);
      SharedWithAppend(old(regions), other.regions, ws);
    }

    /** The second half of `+=`: the other's regions are appended one by one, unmerged. */
    method AppendRegions(rs: seq<TrafficRegion>)
      requires Distinct(regions) && Distinct(rs) && forall r :: r in rs ==> r !in regions
      modifies this`regions
      ensures regions == old(regions) + rs && Distinct(regions)
    {
      for i := 0 to |rs|
        invariant regions == old(regions) + rs[..i]
      {
        PrefixSnoc(rs, i);
        regions := regions + [rs[i]];
      }
      PrefixFull(rs);
      DistinctAppend(old(regions), rs);
    }

    /** The first half of `+=`: the working set takes the other's accesses, and the regions
        built over its list see them. */
    method GrowWs(other: Traffic)
      requires Valid() && other.Valid() && other.ws != ws
      requires other.name == name && other.elemType == elemType
      modifies ws
      ensures Valid() && ws.accesses == old(ws.accesses) + other.ws.accesses
      ensures Value() == Regrown(old(Value()), SharesWs(), ws.accesses)
    {
      ghost var before := Value();
      RegionValsEach(regions);
      ws.AddFrom(other.ws);
      forall k | 0 <= k < |regions| ensures Value()[k] == Regrown(before, SharesWs(), ws.accesses)[k] {
        RegionValsAt(regions, k);
        if regions[k].over != null {
          assert regions[k].over in Sources(regions);
        }
      }
    }

    /** The identity, machine data and condition checker, which every copy keeps. */
    predicate SameIdentity(other: Traffic) {
      && other.name == name && other.elemType == elemType && other.elementByteN == elementByteN
      && other.accByteN == accByteN && other.cacheByteN == cacheByteN && other.condsChk == condsChk
    }

    /** The traffic of a loop whose working set fits in the cache: one fresh region over the
        blocked working set, counted once per block, weighted by the loop's conditions. */
    method Reused(loop: LoopNode, w: WorkingSet, blockN: real) returns (res: Result<Traffic>)
      requires w.Valid() && |w.accesses| > 0 && w.name == name && w.elemType == elemType
      ensures res.Ok? <==> Call(condsChk, loop.conds).Ok?
      ensures res.Err? ==> res.error == Call(condsChk, loop.conds).error
      ensures res.Ok? ==> && fresh(res.value) && res.value.Valid() && SameIdentity(res.value)
                          && res.value.ws == w && res.value.wsBlockN == blockN && res.value.SharesWs() == [true]
                          && res.value.Value() == ScaleAll([RegionVal(w.accesses, AccessSize(w.accesses), blockN)],
                                                           Call(condsChk, loop.conds).value)
    {
      var region := new TrafficRegion.Over(w, blockN);
      var result := new Traffic.Looped(this, w, blockN, [region]);
      assert result.Value() == [RegionVal(w.accesses, AccessSize(w.accesses), blockN)];
      var p := Call(condsChk, loop.conds);
      if p.Err? {
        return Err(p.error);
      }
      result.MulBy(p.value);
      res := Ok(result);
    }

    /** The traffic of a loop whose working set does not fit: these regions, counted once per
        iteration. The regions are shared, so this traffic is scaled too. */
    method Repeated(loop: LoopNode, w: WorkingSet, blockN: real) returns (result: Traffic)
      requires Valid() && w.Valid() && |w.accesses| > 0 && w.name == name && w.elemType == elemType
      modifies regions
      ensures unchanged(this, ws, w)
      ensures fresh(result) && result.Valid() && SameIdentity(result)
      ensures result.ws == w && result.wsBlockN == blockN && result.regions == regions
      ensures result.SharesWs() == SharedWith(regions, w)
      ensures Value() == ScaleAll(old(Value()), loop.IterN() as real) && result.Value() == Value()
    {
      MulBy(loop.IterN() as real);
      result := new Traffic.Looped(this, w, blockN, regions);
      assert forall x :: x in Sources(regions) ==> unchanged(x`accesses);
    }

    /** The first half of the loop rule: the siblings' working sets, summed for one
        iteration, and this working set unrolled along the blocked loop. */
    method Prepare(blockLoop: LoopNode, siblings: seq<Traffic>) returns (loopWs: real, w: WorkingSet)
      requires Valid() && this in siblings
      requires forall k :: 0 <= k < |siblings| ==> siblings[k].Valid()
      requires blockLoop.loopvar != ""
      modifies WorkingSets(siblings)`sizeMemo
      ensures unchanged(this) && Valid() && ws.accesses == old(ws.accesses)
      ensures AllNonEmpty(old(WsViews(WorkingSets(siblings))))
      ensures loopWs == SumWsBytes(old(WsViews(WorkingSets(siblings))))
      ensures fresh(w) && w.Valid() && |w.accesses| > 0 && w.name == name && w.elemType == elemType
      ensures w.wordByteN == ws.wordByteN
      ensures w.accesses == Unrolled(old(ws.accesses), blockLoop.loopvar, blockLoop.lb, blockLoop.ub, true)
    {
      ghost var me :| 0 <= me < |siblings| && siblings[me] == this;
      var wss := WorkingSets(siblings);
      loopWs := SumWsBytesOf(wss);
      assert ws.Valid() && ws.accesses == old(ws.accesses) by {
        assert wss[me] == ws;
      }
      w := ws.Loop(blockLoop);
    }

    /** The second half of the loop rule: the reuse decision. */
    method Decide(loop: LoopNode, w: WorkingSet, blockN: real, loopWs: real) returns (res: Result<Traffic>)
      requires Valid() && w.Valid() && |w.accesses| > 0 && w.name == name && w.elemType == elemType
      modifies regions
      ensures unchanged(this, ws, w)
      ensures var fits := Fits(loopWs, cacheByteN);
              var looped := LoopedRegions(old(Value()), w.accesses, blockN, loop, condsChk, fits);
              && (res.Ok? <==> looped.Ok?)
              && (res.Err? ==> res.error == looped.error)
              && (res.Ok? ==> && fresh(res.value) && res.value.Valid() && SameIdentity(res.value)
                              && res.value.ws == w && res.value.wsBlockN == blockN
                              && res.value.Value() == looped.value
                              && res.value.SharesWs() == if fits then [true] else SharedWith(regions, w))
      ensures Fits(loopWs, cacheByteN) ==> Value() == old(Value())
      ensures !Fits(loopWs, cacheByteN) ==> res.Ok? && res.value.regions == regions && Value() == res.value.Value()
    {
      if loopWs <= cacheByteN {
        res := Reused(loop, w, blockN);
        assert forall x :: x in Sources(regions) ==> unchanged(x`accesses);
      } else {
        var result := Repeated(loop, w, blockN);
        res := Ok(result);
      }
    }

    /** The loop rule for traffic. The working sets of all siblings (the arrays of the same
        loop body) are summed for one iteration. If they fit in the cache, the traffic is one
        region over the working set of the blocked loop, counted once per block and weighted
        by the loop's conditions; otherwise this traffic's own regions are counted once per
        iteration, and they are shared with the result, so this traffic is scaled as well.
        The first sibling reports the reuse decision. */
    method Loop(loop: LoopNode, blockLoop: LoopNode, siblings: seq<Traffic>)
        returns (res: Result<Traffic>, report: Option<ReuseReport>)
      requires Valid() && this in siblings
      requires forall k :: 0 <= k < |siblings| ==> siblings[k].Valid()
      requires blockLoop.loopvar != "" && blockLoop.IterN() != 0
      modifies regions, WorkingSets(siblings)`sizeMemo
      ensures Valid() && ws.accesses == old(ws.accesses)
      ensures AllNonEmpty(old(WsViews(WorkingSets(siblings))))
      ensures var wsBytes := SumWsBytes(old(WsViews(WorkingSets(siblings))));
              report == if siblings[0] == this
                        then Some(ReuseReport(loop.linenum, wsBytes, cacheByteN, Fits(wsBytes, cacheByteN)))
                        else None
      ensures var unrolled := Unrolled(old(ws.accesses), blockLoop.loopvar, blockLoop.lb, blockLoop.ub, true);
              var blockN := BlockCount(old(wsBlockN), loop, blockLoop);
              var fits := Fits(SumWsBytes(old(WsViews(WorkingSets(siblings)))), cacheByteN);
              var looped := LoopedRegions(old(Value()), unrolled, blockN, loop, condsChk, fits);
              && (res.Ok? <==> looped.Ok?)
              && (res.Err? ==> res.error == looped.error)
              && (res.Ok? ==> && res.value.Valid() && fresh(res.value) && fresh(res.value.ws)
                              && SameIdentity(res.value) && res.value.Value() == looped.value
                              && res.value.ws.accesses == unrolled && res.value.ws.wordByteN == ws.wordByteN
                              && res.value.wsBlockN == blockN
                              && res.value.SharesWs() == LoopedShares(|regions|, fits))
              && (fits ==> Value() == old(Value()))
              && (!fits ==> res.value.regions == regions && Value() == looped.value)
    {
      ghost var vals := Value();
      var loopWs, w := Prepare(blockLoop, siblings);
      assert forall x :: x in Sources(regions) ==> unchanged(x`accesses);
      assert Value() == vals;
      var blockN := BlockCount(wsBlockN, loop, blockLoop);
      report := if siblings[0] == this
                then Some(ReuseReport(loop.linenum, loopWs, cacheByteN, loopWs <= cacheByteN))
                else None;
      res := Decide(loop, w, blockN, loopWs);
      NoneShareNew(regions, w);
    }
  }

  // Properties of the loop rule

  /** With reuse, the loop moves the blocked working set once per block, weighted by the
      probability that the loop runs, whatever the per-iteration regions were. */
  lemma ReuseTraffic(vals: seq<RegionVal>, unrolled: seq<Access>, blockN: real, loop: LoopNode, chk: CondsChecker)
    requires |unrolled| > 0 && Call(chk, loop.conds).Ok?
    ensures var r := LoopedRegions(vals, unrolled, blockN, loop, chk, true);
            && r.Ok? && SumSize(r.value) == AccessSize(unrolled)
            && SumWords(r.value) == (AccessSize(unrolled) as real * blockN) * Call(chk, loop.conds).value
  {
    var v, p := RegionVal(unrolled, AccessSize(unrolled), blockN), Call(chk, loop.conds).value;
    assert ScaleAll([v], p) == [ScaleRegion(v, p)];
    MulRegroup(v.size as real, blockN, p);
  }

  /** Without reuse, every region is moved once per iteration: the words and bytes are the
      per-iteration ones times the iteration count, and the distinct sizes stay as they were. */
  lemma NoReuseTraffic(vals: seq<RegionVal>, unrolled: seq<Access>, blockN: real, loop: LoopNode,
                       chk: CondsChecker, accByteN: AccByteN)
    ensures var r := LoopedRegions(vals, unrolled, blockN, loop, chk, false);
            && r == Ok(ScaleAll(vals, loop.IterN() as real))
            && SumWords(r.value) == SumWords(vals) * loop.IterN() as real
            && SumSize(r.value) == SumSize(vals)
            && ScaledBy(SumBytes(r.value, accByteN), SumBytes(vals, accByteN), loop.IterN() as real)
  {
    ScaleWords(vals, loop.IterN() as real);
    ScaleBytes(vals, loop.IterN() as real, accByteN);
  }

  /** The loop rule fails only when the working set fits and a condition of the loop is
      missing from the table; the error names that condition. */
  lemma LoopErrorIsMissingCondition(vals: seq<RegionVal>, unrolled: seq<Access>, blockN: real, loop: LoopNode,
                                    chk: CondsChecker, fits: bool)
    requires fits ==> |unrolled| > 0
    requires LoopedRegions(vals, unrolled, blockN, loop, chk, fits).Err?
    ensures fits && !chk.ignoreConds
    ensures exists k :: 0 <= k < |loop.conds| && !Known(chk, loop.conds[k])
              && LoopedRegions(vals, unrolled, blockN, loop, chk, fits).error == MissingCondition(loop.conds[k].condition)
  {
    CheckCondsFailsIffMissing(chk, loop.conds);
  }

  /** One iteration of a unit-stride read of doubles touches one word: 8 bytes, which fit a
      32 KiB cache (and would fit one of exactly 8 bytes, the boundary case). */
  lemma StreamingWorkingSetExample()
    ensures var views := [WsView([Access([Point(0)], ["i"], 1, 0)], 8.0)];
            AllNonEmpty(views) && SumWsBytes(views) == 8.0 && Fits(8.0, 8.0) && Fits(8.0, 32768.0)
  {
    var acc := Access([Point(0)], ["i"], 1, 0);
    SingleAccessSize(acc);
    var box := MakeBox(acc);
    assert |box| == 1 && box[0] == Interval(0, 1);
    assert Volume(box) == Width(box[0]) * Volume(box[1..]);
    assert box[1..] == [];
    var views := [WsView([acc], 8.0)];
    assert ViewsBytes(views) == [8.0];
    assert [8.0][..0] == [];
  }

  /** The same read over 128 iterations, in one block and with the working set fitting: the
      loop unrolls to the range [0, 127] (UnitStrideExample) and moves its 128 words once,
      1024 bytes. */
  lemma StreamingLoopExample()
    ensures var r := LoopedRegions([RegionVal([Access([Point(0)], ["i"], 1, 0)], 1, 1.0)],
                                   [Access([Range(0, 127)], [""], 1, 0)], 1.0,
                                   LoopNode(1, "i", 0, 127, []), CondsChecker(map[], false), true);
            && r.Ok? && SumWords(r.value) == 128.0
            && SumBytes(r.value, AccByteN(8.0, 8.0, 8.0)) == Ok(1024.0)
  {
    var merged := Access([Range(0, 127)], [""], 1, 0);
    SingleAccessSize(merged);
    var box := MakeBox(merged);
    assert |box| == 1 && box[0] == Interval(0, 128);
    assert Volume(box) == Width(box[0]) * Volume(box[1..]);
    assert box[1..] == [];
    var chk := CondsChecker(map[], false);
    assert Call(chk, []) == Ok(1.0);
    var v := RegionVal([merged], 128, 1.0);
    assert ScaleAll([v], 1.0) == [v];
    assert [v][..0] == [];
    assert AccessTypeOf([merged]) == Ok(Ld) by {
      assert SomeReads([merged]) by { assert [merged][0].readCount > 0; }
    }
    assert RegionBytes(v, AccByteN(8.0, 8.0, 8.0)) == Ok(1024.0);
  }
}
