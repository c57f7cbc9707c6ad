/** The older analyzer's working-set and traffic model (tools/post-new/analyze.py): a working
    set that carries a block count, traffic regions whose size is their count times the union
    size of their accesses, the all-or-nothing reuse decision against a fixed cache, and the
    reuse report printed once per loop. This version weighs no branch conditions and counts
    every word as 8 bytes. */
module PostNewAnalyze {
  import opened Wrappers
  import opened Program
  import opened Box
  import opened Counters
  import opened Unroll
  import P = PostAnalyze
  import opened Seqs

  /** bytesPerWord: every word is taken to be 8 bytes. */
  const BytesPerWord: real := 8.0

  /** The cache size the driver hands to the traffic visitor: 2^15 bytes. */
  const DefaultCacheBytes: real := 32768.0

  // The reuse report: the report and the cache test are those of the current version.

  /** One call of the reporter, given the lines reported so far: the line joins the reported
      lines, and a report is printed only if the line was not reported before. */
  function ReportStep(reported: set<int>, linenum: int, ws: real, cache: real): (r: (set<int>, Option<P.ReuseReport>))
    ensures r.0 == reported + {linenum}
    ensures r.1.Some? <==> linenum !in reported
    ensures r.1.Some? ==> r.1.value == P.ReuseReport(linenum, ws, cache, ws <= cache)
  {
    if linenum in reported then (reported, None)
    else (reported + {linenum}, Some(P.ReuseReport(linenum, ws, cache, P.Fits(ws, cache))))
  }

  /** A second call for the same line changes nothing and prints nothing. */
  lemma ReportIdempotent(reported: set<int>, linenum: int, ws: real, cache: real, ws2: real, cache2: real)
    ensures var s := ReportStep(reported, linenum, ws, cache).0;
            ReportStep(s, linenum, ws2, cache2) == (s, None)
  {
  }

  /** The arguments of one call of the reporter. */
  datatype ReuseCall = ReuseCall(linenum: int, ws: real, cache: real)

  /** The reported lines and the printed reports after a sequence of calls. */
  function ReportAll(reported: set<int>, calls: seq<ReuseCall>): (set<int>, seq<P.ReuseReport>) {
    if calls == [] then (reported, [])
    else
      var (s, out) := ReportAll(reported, calls[..|calls| - 1]);
      var c := calls[|calls| - 1];
      var (s', line) := ReportStep(s, c.linenum, c.ws, c.cache);
      (s', out + if line.Some? then [line.value] else [])
  }

  function CallLines(calls: seq<ReuseCall>): set<int> {
    set k | 0 <= k < |calls| :: calls[k].linenum
  }

  /** The number of printed reports for one line. */
  function ReportsFor(out: seq<P.ReuseReport>, linenum: int): nat {
    if out == [] then 0
    else ReportsFor(out[..|out| - 1], linenum) + if out[|out| - 1].linenum == linenum then 1 else 0
  }

  /** Over any sequence of calls, every line called is remembered, and a line is reported
      exactly once if it was called and not reported before, and never otherwise. */
  lemma {:induction false} ReportedOncePerLine(reported: set<int>, calls: seq<ReuseCall>, linenum: int)
    ensures ReportAll(reported, calls).0 == reported + CallLines(calls)
    ensures ReportsFor(ReportAll(reported, calls).1, linenum)
            == if linenum in reported || linenum !in CallLines(calls) then 0 else 1
  {
    if calls != [] {
      var init, c := calls[..|calls| - 1], calls[|calls| - 1];
      ReportedOncePerLine(reported, init, linenum);
      assert CallLines(calls) == CallLines(init) + {c.linenum} by {
        forall x | x in CallLines(calls) ensures x in CallLines(init) + {c.linenum} {
          var k :| 0 <= k < |calls| && calls[k].linenum == x;
          if k < |init| {
            assert init[k] == calls[k];
          }
        }
        forall x | x in CallLines(init) ensures x in CallLines(calls) {
          var k :| 0 <= k < |init| && init[k].linenum == x;
          assert calls[k] == init[k];
        }
      }
      var (s, out) := ReportAll(reported, init);
      var (s', line) := ReportStep(s, c.linenum, c.ws, c.cache);
      var out' := out + if line.Some? then [line.value] else [];
      if line.Some? {
        assert out'[..|out'| - 1] == out;
      } else {
        assert out' == out;
      }
    }
  }

  /** The module-level set of reported lines, with reportReuse as its one operation. */
  class ReuseReporter {
    var reported: set<int>

    constructor()
      ensures reported == {}
    {
      reported := {};
    }

    /** reportReuse: marks the line and returns the report it prints, if any. */
    method Report(linenum: int, ws: real, cache: real) returns (line: Option<P.ReuseReport>)
      modifies this
      ensures (reported, line) == ReportStep(old(reported), linenum, ws, cache)
    {
      line := None;
      if linenum !in reported {
        reported := reported + {linenum};
        line := Some(P.ReuseReport(linenum, ws, cache, ws <= cache));
      }
    }
  }

  // The working set

  class WorkingSet {
    const name: string
    const elemType: string
    var accesses: seq<Access>
    /** How many blocks of the enclosing loops the working set stands for. */
    const count: real
    /** The memoised size; a memo of 0 counts as absent, as a falsy value does. */
    var sizeMemo: Option<nat>

    ghost predicate Valid()
      reads this
    {
      && AllWellFormed(accesses)
      && (sizeMemo.Some? ==> |accesses| > 0 && sizeMemo.value == AccessSize(accesses))
    }

    /** The working set of an array: its streamed accesses, counted once. */
    constructor FromArray(arr: ArrayRef)
      requires AllWellFormed(arr.accesses)
      ensures Valid() && name == arr.name && elemType == arr.elemType
      ensures accesses == NonStateAccesses(arr.accesses) && count == 1.0 && sizeMemo == None
    {
      name, elemType := arr.name, arr.elemType;
      NonStateWellFormed(arr.accesses);
      accesses, count, sizeMemo := NonStateAccesses(arr.accesses), 1.0, None;
    }

    /** A working set of the same array with no accesses and the given count. */
    constructor Cleared(other: WorkingSet, count0: real)
      ensures Valid() && name == other.name && elemType == other.elemType
      ensures accesses == [] && count == count0 && sizeMemo == None
    {
      name, elemType := other.name, other.elemType;
      accesses, count, sizeMemo := [], count0, None;
    }

    function Words(): nat
      reads this
      requires |accesses| > 0
    {
      AccessSize(accesses)
    }

    /** The size, computed at most once between changes. */
    method Size() returns (r: nat)
      requires Valid() && |accesses| > 0
      modifies this`sizeMemo
      ensures Valid() && accesses == old(accesses)
      ensures r == Words() && sizeMemo == Some(r)
    {
      if sizeMemo.None? || sizeMemo.value == 0 {
        sizeMemo := Some(AccessSize(accesses));
      }
      r := sizeMemo.value;
    }

    /** The bytes of the working set: its words, 8 bytes each. */
    method Bytes() returns (r: real)
      requires Valid() && |accesses| > 0
      modifies this`sizeMemo
      ensures Valid() && accesses == old(accesses) && sizeMemo.Some?
      ensures r == WsBytes(accesses)
    {
      var n := Size();
      r := n as real * BytesPerWord;
    }

    /** Adds one access; regions may overlap, so the memo is dropped. */
    method Consume(acc: Access)
      requires AllWellFormed(accesses) && WellFormed(acc)
      modifies this
      ensures AllWellFormed(accesses) && sizeMemo == None
      ensures accesses == old(accesses) + [acc]
    {
      accesses := accesses + [acc];
      sizeMemo := None;
    }

    /** `+=`: appends every access of the other working set of the same array and count. */
    method AddFrom(other: WorkingSet)
      requires other != this && other.name == name && other.elemType == elemType && other.count == count
      requires Valid() && other.Valid()
      modifies this
      ensures Valid()
      ensures accesses == old(accesses) + other.accesses
      ensures sizeMemo == if other.accesses == [] then old(sizeMemo) else None
    {
      for i := 0 to |other.accesses|
        invariant AllWellFormed(accesses) && (i == 0 ==> Valid())
        invariant accesses == old(accesses) + other.accesses[..i]
        invariant sizeMemo == if i == 0 then old(sizeMemo) else None
      {
        PrefixSnoc(other.accesses, i);
        Consume(other.accesses[i]);
      }
      PrefixFull(other.accesses);
    }

    /** Unrolls the working set along the loop, merging the accesses along the loop
        dimension; the result stands for `numBlocks` times as many blocks. The merged accesses
        carry no read or write counts. */
    method Loop(loop: LoopNode, numBlocks: real) returns (result: WorkingSet)
      requires Valid() && loop.loopvar != ""
      ensures fresh(result) && result.Valid()
      ensures result.name == name && result.elemType == elemType && result.count == BlockCount(count, numBlocks)
      ensures result.accesses == Unrolled(accesses, loop.loopvar, loop.lb, loop.ub, false)
      ensures result.sizeMemo == None
    {
      result := new WorkingSet.Cleared(this, BlockCount(count, numBlocks));
      var keys, buckets := SortInto(result, loop.loopvar);
      MergeInto(result, keys, buckets, loop.lb, loop.ub);
    }

    /** The first loop of the unroll: accesses without the loop variable go straight to the
        result, the others into the bucket of their key. Only the offsets of a bucket are
        used later; the counts recorded beside them are ignored by the merge. */
    method SortInto(result: WorkingSet, v: string) returns (keys: seq<Key>, buckets: map<Key, seq<Entry>>)
      requires Valid() && v != "" && result != this
      requires result.accesses == [] && result.sizeMemo == None
      modifies result
      ensures AllWellFormed(result.accesses) && result.sizeMemo == None
      ensures Sorting(result.accesses, keys, buckets) == Sort(accesses, v)
    {
      keys, buckets := [], map[];
      for j := 0 to |accesses|
        invariant AllWellFormed(result.accesses) && result.sizeMemo == None
        invariant Sorting(result.accesses, keys, buckets) == Sort(accesses[..j], v)
      {
        var acc := accesses[j];
        SortSnoc(accesses, j, v);
        if v !in acc.loopvars {
          result.Consume(acc);
        } else {
          var i := IndexOf(acc.loopvars, v);
          var key := Key(i, Del(acc.index, i), Del(acc.loopvars, i));
          var e := Entry(acc.index[i].x, acc.readCount, acc.writeCount);
          if key !in buckets {
            keys := keys + [key];
            buckets := buckets[key := [e]];
          } else {
            buckets := buckets[key := buckets[key] + [e]];
          }
        }
      }
      PrefixFull(accesses);
    }

    /** The second loop of the unroll: one access per bucket, covering its offsets over the
        loop's range. */
    static method MergeInto(result: WorkingSet, keys: seq<Key>, buckets: map<Key, seq<Entry>>, lb: int, ub: int)
      requires AllWellFormed(result.accesses) && result.sizeMemo == None && MergeReady(keys, buckets)
      modifies result
      ensures AllWellFormed(result.accesses) && result.sizeMemo == None
      ensures result.accesses == old(result.accesses) + MergeAll(keys, buckets, lb, ub, false)
    {
      ghost var all := MergeAll(keys, buckets, lb, ub, false);
      for j := 0 to |keys|
        invariant AllWellFormed(result.accesses) && result.sizeMemo == None
        invariant result.accesses == old(result.accesses) + all[..j]
      {
        MergeAllAt(keys, buckets, lb, ub, false, j);
        result.Consume(MergeBucket(keys[j], buckets[keys[j]], lb, ub, false));
        PrefixSnoc(all, j);
      }
      PrefixFull(all);
    }
  }

  /** The count of a working set that stands for `numBlocks` blocks of one counted `count`
      times. */
  function BlockCount(count: real, numBlocks: real): (r: real)
    ensures numBlocks == 1.0 ==> r == count
    ensures count == 1.0 ==> r == numBlocks
  {
    count * numBlocks
  }

  /** The bytes of a working set with these accesses. */
  function WsBytes(accs: seq<Access>): (r: real)
    requires |accs| > 0
    ensures r / BytesPerWord == AccessSize(accs) as real
  {
    AccessSize(accs) as real * BytesPerWord
  }

  predicate AllNonEmptyWs(views: seq<seq<Access>>) {
    forall k :: 0 <= k < |views| ==> |views[k]| > 0
  }

  function ViewsBytes(views: seq<seq<Access>>): seq<real>
    requires AllNonEmptyWs(views)
  {
    seq(|views|, k requires 0 <= k < |views| => WsBytes(views[k]))
  }

  /** The bytes of the working sets, summed in order. */
  function SumWsBytes(views: seq<seq<Access>>): real
    requires AllNonEmptyWs(views)
  {
    P.SumReals(ViewsBytes(views))
  }

  function WsAccesses(wss: seq<WorkingSet>): (r: seq<seq<Access>>)
    reads wss
    ensures |r| == |wss| && forall k :: 0 <= k < |wss| ==> r[k] == wss[k].accesses
  {
    seq(|wss|, k requires 0 <= k < |wss| reads wss => wss[k].accesses)
  }

  /** The bytes of a list of working sets; each working set remembers its size. */
  method SumWsBytesOf(wss: seq<WorkingSet>) returns (total: real)
    requires forall k :: 0 <= k < |wss| ==> wss[k].Valid() && |wss[k].accesses| > 0
    modifies wss`sizeMemo
    ensures forall k :: 0 <= k < |wss| ==> wss[k].Valid() && wss[k].accesses == old(wss[k].accesses)
    ensures AllNonEmptyWs(old(WsAccesses(wss))) && total == SumWsBytes(old(WsAccesses(wss)))
  {
    ghost var views := WsAccesses(wss);
    ghost var bytes := ViewsBytes(views);
    total := 0.0;
    for k := 0 to |wss|
      invariant forall q :: 0 <= q < |wss| ==> wss[q].Valid() && wss[q].accesses == views[q]
      invariant total == P.SumReals(bytes[..k])
    {
      PrefixPrefix(bytes, k, k + 1);
      var b := wss[k].Bytes();
      total := total + b;
    }
    PrefixFull(bytes);
  }

  // Traffic regions. The region value and its arithmetic are shared with the current
  // version. Here a region stores no size: its size is computed from its accesses whenever
  // it is asked for.

  /** The distinct points of a region's accesses. A region is never built over an empty list,
      and its list only grows. */
  function LazySize(accs: seq<Access>): (n: nat)
    ensures |accs| > 0 ==> n == AccessSize(accs)
    ensures accs == [] ==> n == 0
  {
    if |accs| > 0 then AccessSize(accs) else 0
  }

  /** The region over the given accesses, counted `count` times. */
  function Region(accs: seq<Access>, count: real): P.RegionVal
    requires |accs| > 0
  {
    P.RegionVal(accs, AccessSize(accs), count)
  }

  /** What a region object holds: its accesses and its count, with no size. */
  datatype Counted = Counted(accesses: seq<Access>, count: real)

  /** The region value of what a region holds, measured when it is asked for. */
  function Measure(c: Counted): (v: P.RegionVal)
    ensures v.accesses == c.accesses && v.count == c.count
    ensures |c.accesses| > 0 ==> v == Region(c.accesses, c.count)
  {
    P.RegionVal(c.accesses, LazySize(c.accesses), c.count)
  }

  function MeasureAll(cs: seq<Counted>): (vs: seq<P.RegionVal>)
    ensures |vs| == |cs|
  {
    seq(|cs|, k requires 0 <= k < |cs| => Measure(cs[k]))
  }

  lemma MeasureAppend(a: seq<Counted>, b: seq<Counted>)
    ensures MeasureAll(a + b) == MeasureAll(a) + MeasureAll(b)
  {
    assert forall k :: 0 <= k < |a + b| ==> MeasureAll(a + b)[k] == (MeasureAll(a) + MeasureAll(b))[k];
  }

  function ScaleCounted(c: Counted, n: real): Counted {
    c.(count := c.count * n)
  }

  function ScaleCountedAll(cs: seq<Counted>, n: real): (r: seq<Counted>)
    ensures |r| == |cs|
  {
    seq(|cs|, k requires 0 <= k < |cs| => ScaleCounted(cs[k], n))
  }

  /** Measuring and scaling the counts commute: the size does not depend on the count. */
  lemma MeasureScale(cs: seq<Counted>, n: real)
    ensures MeasureAll(ScaleCountedAll(cs, n)) == P.ScaleAll(MeasureAll(cs), n)
  {
    assert forall k :: 0 <= k < |cs| ==> MeasureAll(ScaleCountedAll(cs, n))[k] == P.ScaleAll(MeasureAll(cs), n)[k];
  }

  /** A traffic region. Its accesses are either a list of its own or the list of the working
      set it was built over, which it shares: when that working set grows, so do the region's
      accesses, and so does its size. */
  class TrafficRegion {
    const ownAccesses: seq<Access>
    const over: WorkingSet?
    var count: real

    constructor(accs: seq<Access>, count0: real)
      ensures over == null && Accesses() == accs && count == count0
    {
      ownAccesses, over, count := accs, null, count0;
    }

    /** A region over the list of the working set `w`. */
    constructor Over(w: WorkingSet, count0: real)
      ensures over == w && Accesses() == w.accesses && count == count0
    {
      ownAccesses, over, count := [], w, count0;
    }

    function Accesses(): seq<Access>
      reads (if over == null then {} else {over})`accesses
    {
      if over == null then ownAccesses else over.accesses
    }

    /** The accesses the region has now and its count. */
    function Value(): Counted
      reads this, (if over == null then {} else {over})`accesses
    {
      Counted(Accesses(), count)
    }

    /** `*=`: scales the count in place. */
    method MulBy(n: real)
      modifies this
      ensures Value() == ScaleCounted(old(Value()), n)
    {
      count := count * n;
    }
  }

  /** The working sets whose lists some of the regions were built over. */
  function Sources(rs: seq<TrafficRegion>): set<WorkingSet> {
    set r | r in rs && r.over != null :: r.over
  }

  /** Which of the regions were built over the list of `w`. */
  function SharedWith(rs: seq<TrafficRegion>, w: WorkingSet): (f: seq<bool>)
    ensures |f| == |rs| && forall k :: 0 <= k < |rs| ==> (f[k] <==> rs[k].over == w)
  {
    seq(|rs|, k requires 0 <= k < |rs| => rs[k].over == w)
  }

  lemma SharedWithAppend(a: seq<TrafficRegion>, b: seq<TrafficRegion>, w: WorkingSet)
    ensures SharedWith(a + b, w) == SharedWith(a, w) + SharedWith(b, w)
  {
    assert forall k :: 0 <= k < |a + b| ==> SharedWith(a + b, w)[k] == (SharedWith(a, w) + SharedWith(b, w))[k];
  }

  function RegionVals(rs: seq<TrafficRegion>): (vs: seq<Counted>)
    reads rs, Sources(rs)`accesses
    ensures |vs| == |rs|
  {
    if rs == [] then [] else RegionVals(rs[..|rs| - 1]) + [rs[|rs| - 1].Value()]
  }

  lemma {:induction false} RegionValsAt(rs: seq<TrafficRegion>, k: int)
    requires 0 <= k < |rs|
    ensures RegionVals(rs)[k] == rs[k].Value()
    decreases |rs|
  {
    if k < |rs| - 1 {
      RegionValsAt(rs[..|rs| - 1], k);
    }
  }

  lemma RegionValsEach(rs: seq<TrafficRegion>)
    ensures forall k :: 0 <= k < |rs| ==> RegionVals(rs)[k] == rs[k].Value()
  {
    forall k | 0 <= k < |rs| ensures RegionVals(rs)[k] == rs[k].Value() {
      RegionValsAt(rs, k);
    }
  }

  lemma {:induction false} RegionValsAppend(a: seq<TrafficRegion>, b: seq<TrafficRegion>)
    ensures RegionVals(a + b) == RegionVals(a) + RegionVals(b)
    decreases |b|
  {
    if b == [] {
      assert a + b == a;
    } else {
      assert (a + b)[..|a + b| - 1] == a + b[..|b| - 1];
      RegionValsAppend(a, b[..|b| - 1]);
    }
  }

  predicate Distinct(rs: seq<TrafficRegion>) {
    forall a, b :: 0 <= a < b < |rs| ==> rs[a] != rs[b]
  }

  lemma DistinctAppend(a: seq<TrafficRegion>, b: seq<TrafficRegion>)
    requires Distinct(a) && Distinct(b) && forall r :: r in b ==> r !in a
    ensures Distinct(a + b)
  {
    forall i, j | 0 <= i < j < |a + b| ensures (a + b)[i] != (a + b)[j] {
      if i < |a| <= j {
        assert (a + b)[j] in b;
      }
    }
  }

  /** Scales the count of every region of a list of distinct regions in place. */
  method ScaleRegions(rs: seq<TrafficRegion>, n: real)
    requires Distinct(rs)
    modifies set r | r in rs
    ensures RegionVals(rs) == ScaleCountedAll(old(RegionVals(rs)), n)
  {
    ghost var before := RegionVals(rs);
    forall k | 0 <= k < |rs| ensures before[k] == rs[k].Value() {
      RegionValsAt(rs, k);
    }
    for i := 0 to |rs|
      invariant forall k :: 0 <= k < i ==> rs[k].Value() == ScaleCounted(before[k], n)
      invariant forall k :: i <= k < |rs| ==> rs[k].Value() == before[k]
    {
      rs[i].MulBy(n);
      assert forall k :: 0 <= k < |rs| && k != i ==> rs[k] != rs[i];
    }
    forall k | 0 <= k < |rs| ensures RegionVals(rs)[k] == ScaleCountedAll(before, n)[k] {
      RegionValsAt(rs, k);
    }
  }

  /** The values of regions after the list that the `shared` ones were built over grew to
      `accs`. A shared region sees the new accesses and is measured over them. */
  function Regrown(vs: seq<P.RegionVal>, shared: seq<bool>, accs: seq<Access>): (r: seq<P.RegionVal>)
    requires |shared| == |vs|
    ensures |r| == |vs|
  {
    seq(|vs|, k requires 0 <= k < |vs| =>
      if shared[k] then vs[k].(accesses := accs, size := LazySize(accs)) else vs[k])
  }

  /** Two sibling loops whose working sets both fit, summed by `+=`: the first loop's region
      was built over its working set's list, which takes the second loop's accesses, so the
      first loop's count now multiplies the size of both working sets. */
  lemma SiblingReuseSum(a1: seq<Access>, a2: seq<Access>, c1: real, c2: real)
    requires |a1| > 0 && |a2| > 0
    ensures P.SumWords(Regrown([Region(a1, c1)], [true], a1 + a2) + [Region(a2, c2)])
            == P.RegionWords(Region(a1 + a2, c1)) + P.RegionWords(Region(a2, c2))
  {
    RegrownPairWords(Region(a1, c1), Region(a2, c2), a1 + a2);
    assert Region(a1, c1).(accesses := a1 + a2, size := AccessSize(a1 + a2)) == Region(a1 + a2, c1);
  }

  /** Two regions of which the first shares a list that grew to `accs`: the first is
      measured over `accs`, the second as it was. */
  lemma RegrownPairWords(x: P.RegionVal, y: P.RegionVal, accs: seq<Access>)
    requires |accs| > 0
    ensures P.SumWords(Regrown([x], [true], accs) + [y])
            == P.RegionWords(x.(accesses := accs, size := AccessSize(accs))) + P.RegionWords(y)
  {
    var x' := x.(accesses := accs, size := AccessSize(accs));
    assert Regrown([x], [true], accs) == [x'];
    var vs := [x'] + [y];
    assert vs[..1] == [x'] && [x'][..0] == [];
    calc {
      P.SumWords(vs);
      P.SumWords([x']) + P.RegionWords(y);
      P.SumWords([]) + P.RegionWords(x') + P.RegionWords(y);
    }
  }

  /** The working sets of a list of traffic objects. */
  function WorkingSets(siblings: seq<Traffic>): (r: seq<WorkingSet>)
    reads siblings
    ensures |r| == |siblings| && forall k :: 0 <= k < |siblings| ==> r[k] == siblings[k].ws
  {
    seq(|siblings|, k requires 0 <= k < |siblings| reads siblings => siblings[k].ws)
  }

  /** The number of blocks of the loop: its iterations over those of the blocked loop. */
  function NumBlocks(loop: LoopNode, blockLoop: LoopNode): (r: real)
    requires blockLoop.IterN() != 0
    ensures r * blockLoop.IterN() as real == loop.IterN() as real
  {
    loop.IterN() as real / blockLoop.IterN() as real
  }

  /** The regions of a loop's traffic: when the working set fits, one region over the unrolled
      blocked working set, counted once per block; otherwise the per-iteration regions, each
      counted once per iteration. */
  function LoopedRegions(vals: seq<P.RegionVal>, unrolled: seq<Access>, blockN: real, iterN: int, fits: bool): (r: seq<P.RegionVal>)
    requires fits ==> |unrolled| > 0
    ensures fits ==> |r| == 1 && r[0].accesses == unrolled
    ensures !fits ==> |r| == |vals|
  {
    if fits then [Region(unrolled, blockN)] else P.ScaleAll(vals, iterN as real)
  }

  /** Regions that existed before a working set was built were not built over it. */
  twostate lemma NoneShareNew(rs: seq<TrafficRegion>, new w: WorkingSet)
    requires fresh(w)
    ensures SharedWith(rs, w) == P.LoopedShares(|rs|, false)
  {
    forall k | 0 <= k < |rs| ensures rs[k].over != w {
      assert old(allocated(rs[k].over));
    }
  }

  class Traffic {
    const name: string
    const elemType: string
    const cacheBytes: real
    var regions: seq<TrafficRegion>
    var ws: WorkingSet

    ghost predicate Valid()
      reads this, ws
    {
      && ws.Valid() && |ws.accesses| > 0 && ws.name == name && ws.elemType == elemType
      && Distinct(regions)
    }

    function Value(): (vs: seq<P.RegionVal>)
      reads this, regions, Sources(regions)`accesses
      ensures |vs| == |regions|
    {
      MeasureAll(RegionVals(regions))
    }

    /** The words moved: the sum over the regions of their count times the distinct points of
        their accesses. */
    function Size(): (w: real)
      reads this, regions, Sources(regions)`accesses
      ensures |regions| == 1 ==> w == P.RegionWords(Value()[0])
    {
      P.SumWords(Value())
    }

    function Bytes(): (b: real)
      reads this, regions, Sources(regions)`accesses
      ensures b / BytesPerWord == Size()
    {
      Size() * BytesPerWord
    }

    /** Which regions were built over this traffic's working-set list, and so grow with it. */
    function SharesWs(): seq<bool>
      reads this
    {
      SharedWith(regions, ws)
    }

    /** The traffic of an array: one region of count 1 over its streamed accesses, and the
        working set of the same array with its accesses resolved by the block parameters. */
    constructor FromArray(arr: ArrayRef, blockArr: ArrayRef, cache: real)
      requires AllWellFormed(arr.accesses) && !OnlyStateVars(arr)
      requires blockArr.name == arr.name && blockArr.elemType == arr.elemType
      requires AllWellFormed(blockArr.accesses) && !OnlyStateVars(blockArr)
      ensures Valid() && fresh(ws) && |regions| == 1 && fresh(regions[0])
      ensures name == arr.name && elemType == arr.elemType && cacheBytes == cache
      ensures Value() == [Region(NonStateAccesses(arr.accesses), 1.0)] && SharesWs() == [false]
      ensures ws.accesses == NonStateAccesses(blockArr.accesses) && ws.count == 1.0 && ws.sizeMemo == None
    {
      var accs := NonStateAccesses(arr.accesses);
      var region := new TrafficRegion(accs, 1.0);
      var w := new WorkingSet.FromArray(blockArr);
      name, elemType, cacheBytes := arr.name, arr.elemType, cache;
      regions, ws := [region], w;
      new;
      assert Value() == [Region(accs, 1.0)] by {
        assert [region][..0] == [];
        assert RegionVals(regions) == [Counted(accs, 1.0)];
        assert Measure(Counted(accs, 1.0)) == Region(accs, 1.0);
      }
      assert SharesWs() == [false];
    }

    /** A copy of the identity and cache of `from`, with the given regions and working set. */
    constructor Looped(from: Traffic, w: WorkingSet, rs: seq<TrafficRegion>)
      ensures name == from.name && elemType == from.elemType && cacheBytes == from.cacheBytes
      ensures regions == rs && ws == w
    {
      name, elemType, cacheBytes := from.name, from.elemType, from.cacheBytes;
      regions, ws := rs, w;
    }

    /** `*=`: scales every region's count in place. */
    method MulBy(n: real)
      requires Valid()
      modifies regions
      ensures Valid()
      ensures Value() == P.ScaleAll(old(Value()), n)
    {
      ghost var before := RegionVals(regions);
      ScaleRegions(regions, n);
      MeasureScale(before, n);
    }

    /** `+=`: merges the working sets and appends the other's regions without merging them.
        The regions built over this working set's list see the other's accesses too. */
    method AddFrom(other: Traffic)
      requires Valid() && other.Valid()
      requires other.name == name && other.elemType == elemType && other.ws.count == ws.count
      requires other.ws != ws && forall r :: r in other.regions ==> r !in regions
      modifies this, ws
      ensures Valid() && ws == old(ws)
      ensures regions == old(regions) + other.regions
      ensures ws.accesses == old(ws.accesses) + other.ws.accesses
      ensures SharesWs() == old(SharesWs()) + SharedWith(other.regions, ws)
      ensures Value() == Regrown(old(Value()), old(SharesWs()), ws.accesses) + other.Value()
    {
      GrowWs(other);
      ghost var grown := Value();
      label mid:
      AppendRegions(other.regions);
      assert forall x :: x in Sources(old(regions)) ==> unchanged@mid(x`accesses);
      assert MeasureAll(RegionVals(old(regions))) == grown;
      RegionValsAppend(old(regions), other.regions);
      MeasureAppend(RegionVals(old(regions)), RegionVals(other.regions));
      SharedWithAppend(old(regions), other.regions, ws);
    }

    /** The first half of `+=`: the working set takes the other's accesses, and the regions
        built over its list see them. */
    method GrowWs(other: Traffic)
      requires Valid() && other.Valid() && other.ws != ws
      requires other.name == name && other.elemType == elemType && other.ws.count == ws.count
      modifies ws
      ensures Valid() && ws.accesses == old(ws.accesses) + other.ws.accesses
      ensures Value() == Regrown(old(Value()), SharesWs(), ws.accesses)
    {
      ghost var before := Value();
      RegionValsEach(regions);
      ws.AddFrom(other.ws);
      forall k | 0 <= k < |regions| ensures Value()[k] == Regrown(before, SharesWs(), ws.accesses)[k] {
        RegionValsAt(regions, k);
        if regions[k].over != null {
          assert regions[k].over in Sources(regions);
        }
      }
    }

    /** The second half of `+=`: the other's regions are appended one by one, unmerged. */
    method AppendRegions(rs: seq<TrafficRegion>)
      requires Distinct(regions) && Distinct(rs) && forall r :: r in rs ==> r !in regions
      modifies this`regions
      ensures regions == old(regions) + rs && Distinct(regions)
    {
      for i := 0 to |rs|
        invariant regions == old(regions) + rs[..i]
      {
        PrefixSnoc(rs, i);
        regions := regions + [rs[i]];
      }
      PrefixFull(rs);
      DistinctAppend(old(regions), rs);
    }

    predicate SameIdentity(other: Traffic) {
      other.name == name && other.elemType == elemType && other.cacheBytes == cacheBytes
    }

    /** The traffic of a loop whose working set fits in the cache: one fresh region over the
        list of the blocked working set, counted as often as the working set. */
    method Reused(w: WorkingSet) returns (result: Traffic)
      requires w.Valid() && |w.accesses| > 0 && w.name == name && w.elemType == elemType
      ensures fresh(result) && result.Valid() && SameIdentity(result) && result.ws == w
      ensures result.Value() == [Region(w.accesses, w.count)] && result.SharesWs() == [true]
    {
      var region := new TrafficRegion.Over(w, w.count);
      result := new Traffic.Looped(this, w, [region]);
      assert result.regions[..0] == [];
    }

    /** The traffic of a loop whose working set does not fit: these regions, counted once per
        iteration. The regions are shared, so this traffic is scaled too. */
    method Repeated(loop: LoopNode, w: WorkingSet) returns (result: Traffic)
      requires Valid() && w.Valid() && |w.accesses| > 0 && w.name == name && w.elemType == elemType
      modifies regions
      ensures unchanged(this, ws, w)
      ensures fresh(result) && result.Valid() && SameIdentity(result)
      ensures result.ws == w && result.regions == regions && result.SharesWs() == SharedWith(regions, w)
      ensures Value() == P.ScaleAll(old(Value()), loop.IterN() as real) && result.Value() == Value()
    {
      MulBy(loop.IterN() as real);
      result := new Traffic.Looped(this, w, regions);
      assert forall x :: x in Sources(regions) ==> unchanged(x`accesses);
    }

    /** The first half of the loop rule: the bytes of the siblings' working sets for one
        iteration, this working set unrolled along the blocked loop, and the reuse report. */
    method Prepare(loop: LoopNode, blockLoop: LoopNode, siblings: seq<Traffic>, reporter: ReuseReporter)
        returns (loopWs: real, w: WorkingSet, line: Option<P.ReuseReport>)
      requires Valid() && this in siblings
      requires forall k :: 0 <= k < |siblings| ==> siblings[k].Valid()
      requires blockLoop.loopvar != "" && blockLoop.IterN() != 0
      modifies WorkingSets(siblings)`sizeMemo, reporter
      ensures unchanged(this) && Valid() && ws.accesses == old(ws.accesses)
      ensures forall x :: x in Sources(regions) ==> unchanged(x`accesses)
      ensures AllNonEmptyWs(old(WsAccesses(WorkingSets(siblings))))
      ensures loopWs == SumWsBytes(old(WsAccesses(WorkingSets(siblings))))
      ensures (reporter.reported, line) == ReportStep(old(reporter.reported), loop.linenum, loopWs, cacheBytes)
      ensures fresh(w) && w.Valid() && |w.accesses| > 0 && w.name == name && w.elemType == elemType
      ensures w.accesses == Unrolled(old(ws.accesses), blockLoop.loopvar, blockLoop.lb, blockLoop.ub, false)
      ensures w.count == BlockCount(ws.count, NumBlocks(loop, blockLoop))
    {
      ghost var me :| 0 <= me < |siblings| && siblings[me] == this;
      var wss := WorkingSets(siblings);
      loopWs := SumWsBytesOf(wss);
      assert ws.Valid() && ws.accesses == old(ws.accesses) by {
        assert wss[me] == ws;
      }
      w := ws.Loop(blockLoop, NumBlocks(loop, blockLoop));
      line := reporter.Report(loop.linenum, loopWs, cacheBytes);
    }

    /** The second half of the loop rule: the reuse decision. */
    method Decide(loop: LoopNode, w: WorkingSet, loopWs: real) returns (result: Traffic)
      requires Valid() && w.Valid() && |w.accesses| > 0 && w.name == name && w.elemType == elemType
      modifies regions
      ensures unchanged(this, ws, w)
      ensures fresh(result) && result.Valid() && SameIdentity(result) && result.ws == w
      ensures var fits := P.Fits(loopWs, cacheBytes);
              && result.Value() == LoopedRegions(old(Value()), w.accesses, w.count, loop.IterN(), fits)
              && result.SharesWs() == if fits then [true] else SharedWith(regions, w)
      ensures P.Fits(loopWs, cacheBytes) ==> Value() == old(Value())
      ensures !P.Fits(loopWs, cacheBytes) ==> result.regions == regions && Value() == result.Value()
    {
      if loopWs <= cacheBytes {
        result := Reused(w);
        assert forall x :: x in Sources(regions) ==> unchanged(x`accesses);
      } else {
        result := Repeated(loop, w);
      }
    }

    /** The loop rule for traffic. The working sets of all siblings are summed for one
        iteration and the reuse decision is reported for the loop's line. If they fit in the
        cache, the traffic is one region over the list of the blocked working set, counted
        once per block; otherwise this traffic's own regions are counted once per iteration,
        and they are shared with the result, so this traffic is scaled as well. */
    method Loop(loop: LoopNode, blockLoop: LoopNode, siblings: seq<Traffic>, reporter: ReuseReporter)
        returns (result: Traffic, line: Option<P.ReuseReport>)
      requires Valid() && this in siblings
      requires forall k :: 0 <= k < |siblings| ==> siblings[k].Valid()
      requires blockLoop.loopvar != "" && blockLoop.IterN() != 0
      modifies regions, WorkingSets(siblings)`sizeMemo, reporter
      ensures Valid() && ws.accesses == old(ws.accesses) && ws.count == old(ws.count)
      ensures AllNonEmptyWs(old(WsAccesses(WorkingSets(siblings))))
      ensures (reporter.reported, line)
              == ReportStep(old(reporter.reported), loop.linenum, SumWsBytes(old(WsAccesses(WorkingSets(siblings)))), cacheBytes)
      ensures fresh(result) && fresh(result.ws) && result.Valid() && SameIdentity(result)
      ensures result.ws.accesses == Unrolled(old(ws.accesses), blockLoop.loopvar, blockLoop.lb, blockLoop.ub, false)
      ensures result.ws.count == BlockCount(ws.count, NumBlocks(loop, blockLoop))
      ensures var fits := P.Fits(SumWsBytes(old(WsAccesses(WorkingSets(siblings)))), cacheBytes);
              && result.Value() == LoopedRegions(old(Value()), result.ws.accesses, result.ws.count, loop.IterN(), fits)
              && result.SharesWs() == P.LoopedShares(|regions|, fits)
              && (fits ==> Value() == old(Value()))
              && (!fits ==> result.regions == regions && Value() == result.Value())
    {
      ghost var vals := Value();
      var loopWs, w;
      loopWs, w, line := Prepare(loop, blockLoop, siblings, reporter);
      assert Value() == vals;
      ghost var reported := reporter.reported;
      result := Decide(loop, w, loopWs);
      assert reporter.reported == reported;
      NoneShareNew(regions, w);
    }
  }

  // Properties of the loop rule

  /** With reuse, the loop moves the distinct words of the blocked working set once per
      block, whatever the per-iteration regions were. */
  lemma ReuseTraffic(vals: seq<P.RegionVal>, unrolled: seq<Access>, blockN: real, iterN: int)
    requires |unrolled| > 0
    ensures var r := LoopedRegions(vals, unrolled, blockN, iterN, true);
            && P.SumSize(r) == AccessSize(unrolled)
            && P.SumWords(r) == AccessSize(unrolled) as real * blockN
  {
    var r := LoopedRegions(vals, unrolled, blockN, iterN, true);
    assert r[..0] == [];
  }

  /** Without reuse, every region is moved once per iteration: the words are the
      per-iteration ones times the iteration count, and the distinct sizes stay as they were. */
  lemma NoReuseTraffic(vals: seq<P.RegionVal>, unrolled: seq<Access>, blockN: real, iterN: int)
    ensures var r := LoopedRegions(vals, unrolled, blockN, iterN, false);
            && P.SumWords(r) == P.SumWords(vals) * iterN as real
            && P.SumSize(r) == P.SumSize(vals)
  {
    P.ScaleWords(vals, iterN as real);
  }

  /** An unblocked loop is one block: the working set keeps its count. */
  lemma DivSelf(x: real)
    requires x != 0.0
    ensures x / x == 1.0
  {
  }

  lemma UnblockedIsOneBlock(loop: LoopNode)
    requires loop.IterN() != 0
    ensures NumBlocks(loop, loop) == 1.0
  {
    DivSelf(loop.IterN() as real);
  }
}
