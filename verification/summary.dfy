/** The summary of the processed records (`DataProcessorService.get_summary`):
    the per-tool histogram and the tolerance tallies. */
module Summary {
  import opened Filtering
  import opened Characteristic

  /** One entry of the tool histogram. Python dictionaries keep insertion
      order, so the histogram is a sequence ordered by first appearance. */
  datatype ToolCount = ToolCount(tool: string, count: nat)

  /** The test "is the tool `x`". */
  function IsTool(x: string): (p: string -> bool)
    ensures forall y :: p(y) <==> y == x
  {
    y => y == x
  }

  /** Number of occurrences of `x` in `s`. */
  function Occurrences(s: seq<string>, x: string): (n: nat)
    ensures n <= |s|
    ensures n > 0 <==> x in s
  {
    CountWherePositive(s, IsTool(x));
    CountWhere(s, IsTool(x))
  }

  lemma OccurrencesAppend(s: seq<string>, t: string, x: string)
    ensures Occurrences(s + [t], x) == Occurrences(s, x) + (if t == x then 1 else 0)
  {
    assert (s + [t])[..|s|] == s;
  }

  /** Position of the first occurrence of `x` in `s`. */
  function FirstIndex(s: seq<string>, x: string): (r: nat)
    requires x in s
    ensures r < |s| && s[r] == x && x !in s[..r]
  {
    if s[0] == x then 0
    else
      var r := FirstIndex(s[1..], x);
      assert s[..r + 1] == [s[0]] + s[1..][..r];
      r + 1
  }

  /** Appending an element does not move earlier first occurrences, and a
      new element first occurs at the end. */
  lemma FirstIndexAppend(s: seq<string>, t: string, x: string)
    requires x in s + [t]
    ensures x in s ==> FirstIndex(s + [t], x) == FirstIndex(s, x)
    ensures x !in s ==> FirstIndex(s + [t], x) == |s|
  {
    var r := FirstIndex(s + [t], x);
    assert forall k :: 0 <= k < r ==> (s + [t])[k] != x by {
      forall k | 0 <= k < r ensures (s + [t])[k] != x {
        assert (s + [t])[..r][k] == (s + [t])[k];
      }
    }
    if x in s {
      var q := FirstIndex(s, x);
      assert forall k :: 0 <= k < q ==> s[k] != x by {
        forall k | 0 <= k < q ensures s[k] != x {
          assert s[..q][k] == s[k];
        }
      }
      assert (s + [t])[q] == x;
      assert r <= q;
      assert s[r] == x;
    }
  }

  /** Sum of the histogram's counts. */
  function Total(h: seq<ToolCount>): nat {
    if h == [] then 0 else Total(h[..|h| - 1]) + h[|h| - 1].count
  }

  lemma {:induction false} TotalBump(h: seq<ToolCount>, j: nat)
    requires j < |h|
    ensures Total(h[j := ToolCount(h[j].tool, h[j].count + 1)]) == Total(h) + 1
    decreases |h|
  {
    var h' := h[j := ToolCount(h[j].tool, h[j].count + 1)];
    var n := |h| - 1;
    if j < n {
      TotalBump(h[..n], j);
      assert h'[..n] == h[..n][j := ToolCount(h[j].tool, h[j].count + 1)];
    } else {
      assert h'[..n] == h[..n];
    }
  }

  lemma TotalAppend(h: seq<ToolCount>, e: ToolCount)
    ensures Total(h + [e]) == Total(h) + e.count
  {
    assert (h + [e])[..|h|] == h;
  }

  /** The tools of the histogram, in order. */
  function Keys(h: seq<ToolCount>): (ks: seq<string>)
    ensures |ks| == |h|
    ensures forall j :: 0 <= j < |h| ==> ks[j] == h[j].tool
  {
    seq(|h|, j requires 0 <= j < |h| => h[j].tool)
  }

  /** The keys of a non-empty histogram split at the first entry. A lemma of
      its own so that `Find` does not prove the sequence equality in its
      larger context, which costs the solver several times as much. */
  lemma KeysTail(h: seq<ToolCount>)
    requires h != []
    ensures Keys(h) == [h[0].tool] + Keys(h[1..])
  {
    assert Keys(h) == [h[0].tool] + Keys(h[1..]);
  }

  /** Index of the entry for `t`, or -1 when `t` has none. */
  function Find(h: seq<ToolCount>, t: string): (r: int)
    ensures -1 <= r < |h|
    ensures r >= 0 ==> h[r].tool == t
    ensures r == -1 <==> t !in Keys(h)
  {
    if h == [] then -1
    else if h[0].tool == t then 0
    else
      var r := Find(h[1..], t);
      KeysTail(h);
      if r == -1 then -1 else r + 1
  }

  /** No tool has two entries. */
  predicate DistinctTools(h: seq<ToolCount>) {
    forall j, k :: 0 <= j < k < |h| ==> h[j].tool != h[k].tool
  }

  /** Every entry counts the occurrences of a tool of `s`. */
  predicate CountsOccurrences(h: seq<ToolCount>, s: seq<string>) {
    forall j :: 0 <= j < |h| ==> h[j].tool in s && h[j].count == Occurrences(s, h[j].tool)
  }

  /** Every element of `s` has an entry. */
  predicate CoversAll(h: seq<ToolCount>, s: seq<string>) {
    forall m :: 0 <= m < |s| ==> s[m] in Keys(h)
  }

  /** Entries are ordered by the first appearance of their tool in `s`. */
  predicate InFirstAppearanceOrder(h: seq<ToolCount>, s: seq<string>)
    requires forall j :: 0 <= j < |h| ==> h[j].tool in s
  {
    forall j, k :: 0 <= j < k < |h| ==> FirstIndex(s, h[j].tool) < FirstIndex(s, h[k].tool)
  }

  /** `h` is the insertion-ordered tool histogram of `s`: one entry per
      distinct element, in order of first appearance, each counting that
      element's occurrences, with counts adding up to `|s|`. */
  predicate IsHistogram(h: seq<ToolCount>, s: seq<string>) {
    && DistinctTools(h)
    && CountsOccurrences(h, s)
    && CoversAll(h, s)
    && InFirstAppearanceOrder(h, s)
    && Total(h) == |s|
  }

  lemma BumpCounts(h: seq<ToolCount>, s: seq<string>, t: string, j: nat)
    requires CountsOccurrences(h, s) && DistinctTools(h)
    requires j < |h| && h[j].tool == t
    ensures CountsOccurrences(h[j := ToolCount(t, h[j].count + 1)], s + [t])
  {
    var h' := h[j := ToolCount(t, h[j].count + 1)];
    forall k | 0 <= k < |h'|
      ensures h'[k].tool in s + [t] && h'[k].count == Occurrences(s + [t], h'[k].tool)
    {
      assert h[k].tool in s && h[k].count == Occurrences(s, h[k].tool);
      OccurrencesAppend(s, t, h[k].tool);
      assert h'[k].tool == h[k].tool;
      assert h'[k].tool in s + [t];
      if k == j {
        assert h'[k].count == Occurrences(s, t) + 1;
      } else {
        assert h'[k] == h[k];
      }
    }
  }

  lemma BumpCovers(h: seq<ToolCount>, s: seq<string>, t: string, j: nat)
    requires CoversAll(h, s)
    requires j < |h| && h[j].tool == t
    ensures CoversAll(h[j := ToolCount(t, h[j].count + 1)], s + [t])
  {
    assert Keys(h[j := ToolCount(t, h[j].count + 1)]) == Keys(h);
  }

  lemma BumpOrder(h: seq<ToolCount>, s: seq<string>, t: string, j: nat)
    requires forall k :: 0 <= k < |h| ==> h[k].tool in s
    requires InFirstAppearanceOrder(h, s)
    requires j < |h| && h[j].tool == t
    ensures InFirstAppearanceOrder(h[j := ToolCount(t, h[j].count + 1)], s + [t])
  {
    forall k | 0 <= k < |h| { FirstIndexAppend(s, t, h[k].tool); }
  }

  /** Counting one more occurrence of a tool that already has an entry
      keeps the histogram correct. */
  lemma BumpKeepsHistogram(h: seq<ToolCount>, s: seq<string>, t: string, j: nat)
    requires IsHistogram(h, s)
    requires j < |h| && h[j].tool == t
    ensures IsHistogram(h[j := ToolCount(t, h[j].count + 1)], s + [t])
  {
    BumpCounts(h, s, t, j);
    BumpCovers(h, s, t, j);
    BumpOrder(h, s, t, j);
    TotalBump(h, j);
  }

  lemma AppendCounts(h: seq<ToolCount>, s: seq<string>, t: string)
    requires CountsOccurrences(h, s)
    requires t !in s
    ensures CountsOccurrences(h + [ToolCount(t, 1)], s + [t])
  {
    forall x { OccurrencesAppend(s, t, x); }
  }

  lemma AppendCovers(h: seq<ToolCount>, s: seq<string>, t: string)
    requires CoversAll(h, s)
    ensures CoversAll(h + [ToolCount(t, 1)], s + [t])
  {
    assert Keys(h + [ToolCount(t, 1)]) == Keys(h) + [t];
  }

  lemma AppendOrder(h: seq<ToolCount>, s: seq<string>, t: string)
    requires forall k :: 0 <= k < |h| ==> h[k].tool in s
    requires InFirstAppearanceOrder(h, s)
    requires t !in s
    ensures forall k :: 0 <= k < |h| + 1 ==> (h + [ToolCount(t, 1)])[k].tool in s + [t]
    ensures InFirstAppearanceOrder(h + [ToolCount(t, 1)], s + [t])
  {
    var h' := h + [ToolCount(t, 1)];
    forall k | 0 <= k < |h'| { FirstIndexAppend(s, t, h'[k].tool); }
  }

  /** The same update for a tool seen for the first time. */
  lemma AppendKeepsHistogram(h: seq<ToolCount>, s: seq<string>, t: string)
    requires IsHistogram(h, s)
    requires t !in Keys(h)
    ensures IsHistogram(h + [ToolCount(t, 1)], s + [t])
  {
    assert t !in s;
    AppendCounts(h, s, t);
    AppendCovers(h, s, t);
    AppendOrder(h, s, t);
    forall j | 0 <= j < |h| ensures h[j].tool != t {
      assert Keys(h)[j] == h[j].tool;
    }
    TotalAppend(h, ToolCount(t, 1));
  }

  /** One step of the counting loop: the entry of `t` is incremented, or
      appended with count 1. */
  function AddTool(h: seq<ToolCount>, t: string): seq<ToolCount> {
    var j := Find(h, t);
    if j >= 0 then h[j := ToolCount(t, h[j].count + 1)] else h + [ToolCount(t, 1)]
  }

  lemma AddToolKeepsHistogram(h: seq<ToolCount>, s: seq<string>, t: string)
    requires IsHistogram(h, s)
    ensures IsHistogram(AddTool(h, t), s + [t])
  {
    var j := Find(h, t);
    if j >= 0 {
      BumpKeepsHistogram(h, s, t, j);
    } else {
      AppendKeepsHistogram(h, s, t);
    }
  }

  /** The histogram after counting every element of `s` in turn. */
  function Histogram(s: seq<string>): seq<ToolCount> {
    if s == [] then [] else AddTool(Histogram(s[..|s| - 1]), s[|s| - 1])
  }

  lemma {:induction false} HistogramCorrect(s: seq<string>)
    ensures IsHistogram(Histogram(s), s)
    decreases |s|
  {
    if s != [] {
      var n := |s| - 1;
      assert s[..n] + [s[n]] == s;
      var h := AddTool(Histogram(s[..n]), s[n]);
      assert Histogram(s) == h;
      HistogramCorrect(s[..n]);
      AddToolKeepsHistogram(Histogram(s[..n]), s[..n], s[n]);
    }
  }

  /** The tool counts of `get_summary`, built in one pass over the tools,
      adding one to the tool's entry or creating it with count 1. */
  method ToolHistogram(tools: seq<string>) returns (h: seq<ToolCount>)
    ensures IsHistogram(h, tools)
  {
    h := [];
    var i := 0;
    while i < |tools|
      invariant 0 <= i <= |tools|
      invariant h == Histogram(tools[..i])
    {
      assert tools[..i + 1][..i] == tools[..i];
      h := AddTool(h, tools[i]);
      i := i + 1;
    }
    assert tools[..i] == tools;
    HistogramCorrect(tools);
  }

  /** A sequence without repeats has as many elements as its set. */
  lemma {:induction false} DistinctCardinality(ks: seq<string>)
    requires forall j, k :: 0 <= j < k < |ks| ==> ks[j] != ks[k]
    ensures |set x | x in ks| == |ks|
    decreases |ks|
  {
    if ks != [] {
      var n := |ks| - 1;
      DistinctCardinality(ks[..n]);
      assert (set x | x in ks) == (set x | x in ks[..n]) + {ks[n]};
      assert ks[n] !in ks[..n];
    }
  }

  /** The histogram has one entry per distinct element. */
  lemma HistogramSize(h: seq<ToolCount>, s: seq<string>)
    requires IsHistogram(h, s)
    ensures |h| == |set x | x in s|
  {
    var ks := Keys(h);
    forall x | x in ks ensures x in s {
      var j :| 0 <= j < |h| && ks[j] == x;
    }
    assert (set x | x in s) == (set x | x in ks);
    DistinctCardinality(ks);
  }

  function ToolsOf(records: seq<Characteristic>): (tools: seq<string>)
    ensures |tools| == |records|
    ensures forall k :: 0 <= k < |records| ==> tools[k] == records[k].tooling
  {
    seq(|records|, k requires 0 <= k < |records| => records[k].tooling)
  }

  /** The histogram of the records' tools has one entry per different tool
      among the records. */
  lemma ToolsOfSize(records: seq<Characteristic>, h: seq<ToolCount>)
    requires IsHistogram(h, ToolsOf(records))
    ensures |h| == |set k | 0 <= k < |records| :: records[k].tooling|
  {
    var tools := ToolsOf(records);
    HistogramSize(h, tools);
    assert (set x | x in tools) == (set k | 0 <= k < |records| :: records[k].tooling);
  }

  predicate IsFlagged(c: Characteristic) { c.outOfTolerance }

  predicate LacksToleranceType(c: Characteristic) { !HasToleranceType(c) }

  datatype Summary =
    | NoData
    | Summary(
        total: nat,
        tooling: seq<ToolCount>,
        distinctTools: nat,
        parsedCount: nat,
        outOfToleranceCount: nat,
        notToleranced: int)

  /** `get_summary`: the "no data yet" message for an empty record list,
      otherwise the totals. */
  method GetSummary(records: seq<Characteristic>) returns (s: Summary)
    ensures s.NoData? <==> records == []
    ensures s.Summary? ==>
      && s.total == |records|
      && s.distinctTools == |s.tooling| == |set k | 0 <= k < |records| :: records[k].tooling|
      && IsHistogram(s.tooling, ToolsOf(records))
      && Total(s.tooling) == s.total
      && s.parsedCount == CountWhere(records, HasToleranceType) <= s.total
      && s.outOfToleranceCount == CountWhere(records, IsFlagged)
      && s.notToleranced == s.total - s.parsedCount == CountWhere(records, LacksToleranceType)
  {
    if records == [] {
      return NoData;
    }
    var tools := ToolsOf(records);
    var h := ToolHistogram(tools);
    ToolsOfSize(records, h);
    var parsed := CountWhere(records, HasToleranceType);
    CountWhereComplement(records, HasToleranceType, LacksToleranceType);
    s := Summary(|records|, h, |h|, parsed, CountWhere(records, IsFlagged), |records| - parsed);
  }
}
