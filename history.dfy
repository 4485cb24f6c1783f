/** The bookkeeping of runRktMonitor (main.go): every tick appends each
    status getUsage returned to the history of its pid, and at the end every
    history is reduced to its length, its average user CPU share, its average
    virtual memory size and its peak virtual memory size. */
module History {
  import opened Outcome
  import opened Integers
  import opened Text
  import opened Status
  import opened Usage

  /** The `usages` map: for each pid seen, its statuses in tick order. */
  type Histories = map<int, seq<ProcessStatus>>

  /** The history of a pid; a pid never seen has the empty (nil) history. */
  function HistoryOf(usages: Histories, pid: int): seq<ProcessStatus>
  {
    if pid in usages then usages[pid] else []
  }

  /** The histories after appending one tick's statuses, one by one. */
  function Recorded(usages: Histories, usage: seq<ProcessStatus>): Histories
  {
    if usage == [] then usages
    else
      var before := Recorded(usages, usage[..|usage| - 1]);
      var status := usage[|usage| - 1];
      before[status.pid := HistoryOf(before, status.pid) + [status]]
  }

  /** The append loop of one tick. */
  method RecordTick(usages: Histories, usage: seq<ProcessStatus>) returns (next: Histories)
    ensures next == Recorded(usages, usage)
  {
    next := usages;
    for i := 0 to |usage|
      invariant next == Recorded(usages, usage[..i])
    {
      assert usage[..i + 1][..i] == usage[..i];
      var pid := usage[i].pid;
      var history := if pid in next then next[pid] else [];
      next := next[pid := history + [usage[i]]];
    }
    assert usage[..|usage|] == usage;
  }

  /** One turn of the monitoring loop: the statuses of the tree, read
      against the previous tick's statuses, are appended to the histories
      and become the previous statuses of the next tick. */
  function TickOf(root: ProcTree, usages: Histories, last: seq<ProcessStatus>): Result<(Histories, seq<ProcessStatus>)>
  {
    match UsageOf(root, last)
    case Err(e) => Err(e)
    case Ok(usage) => Ok((Recorded(usages, usage), usage))
  }

  method Tick(root: ProcTree, usages: Histories, last: seq<ProcessStatus>)
    returns (r: Result<(Histories, seq<ProcessStatus>)>)
    ensures r == TickOf(root, usages, last)
  {
    var usage := GetUsage(root, last);
    if usage.Err? {
      return Err(usage.failure);
    }
    var next := RecordTick(usages, usage.value);
    r := Ok((next, usage.value));
  }

  // ---------------------------------------------------------------- histories

  /** The statuses of one pid within a tick, in order. */
  function EntriesFor(pid: int, usage: seq<ProcessStatus>): (r: seq<ProcessStatus>)
    ensures forall i :: 0 <= i < |r| ==> r[i].pid == pid && r[i] in usage
  {
    if usage == [] then []
    else
      var before := EntriesFor(pid, usage[..|usage| - 1]);
      if usage[|usage| - 1].pid == pid then before + [usage[|usage| - 1]] else before
  }

  /** A tick appends to each pid's history exactly that pid's statuses of
      the tick, in order, and touches no other history. */
  lemma {:induction false} RecordedHistory(usages: Histories, usage: seq<ProcessStatus>, pid: int)
    ensures HistoryOf(Recorded(usages, usage), pid) == HistoryOf(usages, pid) + EntriesFor(pid, usage)
  {
    if usage == [] {
      assert HistoryOf(usages, pid) + [] == HistoryOf(usages, pid);
    } else {
      var front := usage[..|usage| - 1];
      RecordedHistory(usages, front, pid);
      if usage[|usage| - 1].pid == pid {
        assert HistoryOf(usages, pid) + EntriesFor(pid, front) + [usage[|usage| - 1]] ==
          HistoryOf(usages, pid) + (EntriesFor(pid, front) + [usage[|usage| - 1]]);
      }
    }
  }

  /** After a tick the map holds the pids it held before and every pid of
      the tick. */
  lemma {:induction false} RecordedKeys(usages: Histories, usage: seq<ProcessStatus>)
    ensures Recorded(usages, usage).Keys == usages.Keys + set i | 0 <= i < |usage| :: usage[i].pid
  {
    if usage != [] {
      var front := usage[..|usage| - 1];
      RecordedKeys(usages, front);
      assert (set i | 0 <= i < |usage| :: usage[i].pid) ==
        (set i | 0 <= i < |front| :: front[i].pid) + {usage[|usage| - 1].pid} by {
        assert forall i :: 0 <= i < |front| ==> front[i] == usage[i];
      }
    }
  }

  /** Every history is non-empty and holds only statuses of its own pid. */
  predicate WellFormed(usages: Histories)
  {
    forall pid :: pid in usages ==>
      usages[pid] != [] && forall i :: 0 <= i < |usages[pid]| ==> usages[pid][i].pid == pid
  }

  /** Appending a tick keeps the histories well formed. */
  lemma {:induction false} RecordedWellFormed(usages: Histories, usage: seq<ProcessStatus>)
    requires WellFormed(usages)
    ensures WellFormed(Recorded(usages, usage))
  {
    if usage != [] {
      RecordedWellFormed(usages, usage[..|usage| - 1]);
    }
  }

  /** The histories after a run of ticks, each given by the statuses it
      read. */
  function AfterTicks(ticks: seq<seq<ProcessStatus>>): Histories
  {
    if ticks == [] then map[] else Recorded(AfterTicks(ticks[..|ticks| - 1]), ticks[|ticks| - 1])
  }

  /** A pid's entries over a run of ticks, tick after tick. */
  function EntriesOverTicks(pid: int, ticks: seq<seq<ProcessStatus>>): seq<ProcessStatus>
  {
    if ticks == [] then []
    else EntriesOverTicks(pid, ticks[..|ticks| - 1]) + EntriesFor(pid, ticks[|ticks| - 1])
  }

  /** Histories only grow by appending, in tick order: after a run, a pid's
      history is its entries of the first tick, then of the second, and so
      on; and every history in the map is non-empty. */
  lemma {:induction false} AfterTicksHistory(ticks: seq<seq<ProcessStatus>>, pid: int)
    ensures HistoryOf(AfterTicks(ticks), pid) == EntriesOverTicks(pid, ticks)
    ensures WellFormed(AfterTicks(ticks))
  {
    if ticks != [] {
      var front := ticks[..|ticks| - 1];
      AfterTicksHistory(front, pid);
      RecordedHistory(AfterTicks(front), ticks[|ticks| - 1], pid);
      RecordedWellFormed(AfterTicks(front), ticks[|ticks| - 1]);
    }
  }

  // ---------------------------------------------------------------- summary

  /** The line printed for one history. */
  datatype Summary = Summary(name: string, pid: int, secondsAlive: nat, avgCpu: u64, avgMem: u64, peakMem: u64)

  /** Every status of the history has a defined CPU share: the system total
      moved since the previous tick (otherwise Go divides by zero). */
  predicate CpuDefined(history: seq<ProcessStatus>)
  {
    forall i :: 0 <= i < |history| ==> history[i].timeTotal != history[i].lastTimeTotal
  }

  /** The user CPU share of every status (GetCPUUsageUser). */
  function CpuShares(history: seq<ProcessStatus>): (shares: seq<nat>)
    requires CpuDefined(history)
    ensures |shares| == |history|
    ensures forall i :: 0 <= i < |history| ==> shares[i] == CpuUsageUser(history[i])
  {
    seq(|history|, i requires 0 <= i < |history| && CpuDefined(history) => CpuUsageUser(history[i]) as nat)
  }

  function VmSizes(history: seq<ProcessStatus>): (sizes: seq<nat>)
    ensures |sizes| == |history|
    ensures forall i :: 0 <= i < |history| ==> sizes[i] == history[i].vmSize
  {
    seq(|history|, i requires 0 <= i < |history| => history[i].vmSize as nat)
  }

  /** The peak loop: the largest VmPeak, starting from 0. */
  function PeakOf(history: seq<ProcessStatus>): (peak: u64)
    ensures forall i :: 0 <= i < |history| ==> history[i].vmPeak <= peak
    ensures peak == 0 || exists i :: 0 <= i < |history| && history[i].vmPeak == peak
  {
    if history == [] then 0
    else
      var before := PeakOf(history[..|history| - 1]);
      var candidate := history[|history| - 1].vmPeak;
      if before < candidate then candidate else before
  }

  /** uint64 floor division of a running sum by the number of entries. */
  function Average(total: u64, n: nat): (r: u64)
    requires n > 0
    ensures r <= total
  {
    QuotientAtMost(total, n);
    total / n
  }

  /** The summary of one history: name and pid of its first status, its
      length, the uint64 sums of CPU shares and of VmSize floor-divided by
      the length, and the peak VmPeak. */
  function SummaryOf(history: seq<ProcessStatus>): Summary
    requires history != [] && CpuDefined(history)
  {
    Summary(history[0].name, history[0].pid, |history|,
      Average(Wrap(Sum(CpuShares(history))), |history|),
      Average(Wrap(Sum(VmSizes(history))), |history|),
      PeakOf(history))
  }

  method Summarize(history: seq<ProcessStatus>) returns (s: Summary)
    requires history != [] && CpuDefined(history)
    ensures s == SummaryOf(history)
  {
    var avgCpu: u64, avgMem: u64, peakMem: u64 := 0, 0, 0;
    ghost var shares := CpuShares(history);
    ghost var sizes := VmSizes(history);
    for i := 0 to |history|
      invariant avgCpu == Wrap(Sum(shares[..i]))
      invariant avgMem == Wrap(Sum(sizes[..i]))
      invariant peakMem == PeakOf(history[..i])
    {
      var cpu := CpuUsageUser(history[i]);
      var mem := history[i].vmSize;
      var cpuNext := Wrap(avgCpu + cpu);
      var memNext := Wrap(avgMem + mem);
      SumStep(shares, i, avgCpu, cpu, cpuNext);
      SumStep(sizes, i, avgMem, mem, memNext);
      PeakStep(history, i, peakMem);
      avgCpu, avgMem := cpuNext, memNext;
      if peakMem < history[i].vmPeak {
        peakMem := history[i].vmPeak;
      }
    }
    assert shares[..|history|] == shares;
    assert sizes[..|history|] == sizes;
    assert history[..|history|] == history;
    s := Summary(history[0].name, history[0].pid, |history|,
      Average(avgCpu, |history|), Average(avgMem, |history|), peakMem);
  }

  /** One more status in the peak loop. */
  lemma PeakStep(history: seq<ProcessStatus>, i: nat, peak: u64)
    requires i < |history| && peak == PeakOf(history[..i])
    ensures PeakOf(history[..i + 1]) == if peak < history[i].vmPeak then history[i].vmPeak else peak
  {
    assert history[..i + 1][..i] == history[..i];
  }

  /** Adding the next value to a uint64 running sum. */
  lemma SumStep(xs: seq<nat>, i: nat, acc: u64, x: nat, next: u64)
    requires i < |xs| && xs[i] == x
    requires acc == Wrap(Sum(xs[..i])) && next == Wrap(acc + x)
    ensures next == Wrap(Sum(xs[..i + 1]))
  {
    assert xs[..i + 1][..i] == xs[..i];
    WrapAccumulate(acc, Sum(xs[..i]), xs[i]);
  }

  /** A floor average of values between lo and hi is between lo and hi. */
  lemma AverageBetween(sum: nat, n: nat, lo: nat, hi: nat)
    requires 0 < n && n * lo <= sum <= n * hi
    ensures lo <= sum / n <= hi
  {
    var q := sum / n;
    var r := sum % n;
    assert sum == q * n + r && r < n;
    assert (q + 1) * n == q * n + n;
    assert (hi + 1) * n == hi * n + n;
    if q < lo {
      MulMonotone(q + 1, lo, n);
    }
    if q > hi {
      MulMonotone(hi + 1, q, n);
    }
  }

  lemma MulMonotone(a: nat, b: nat, n: nat)
    requires a <= b
    ensures a * n <= b * n
  {
    var d := b - a;
    assert b * n == a * n + d * n;
  }

  /** When the memory sum does not wrap, the average memory lies between
      the smallest and the largest VmSize of the history. */
  lemma AverageMemBetween(history: seq<ProcessStatus>, lo: nat, hi: nat)
    requires history != [] && CpuDefined(history)
    requires forall i :: 0 <= i < |history| ==> lo <= history[i].vmSize <= hi
    requires |history| * hi < U64_LIMIT
    ensures lo <= SummaryOf(history).avgMem <= hi
  {
    var sizes := VmSizes(history);
    SumAtMost(sizes, hi);
    SumAtLeast(sizes, lo);
    AverageBetween(Sum(sizes), |history|, lo, hi);
  }

  /** When every share is at most 100 and the sum cannot wrap, the average
      CPU share is at most 100. */
  lemma AverageCpuAtMost100(history: seq<ProcessStatus>)
    requires history != [] && CpuDefined(history)
    requires forall i :: 0 <= i < |history| ==> CpuUsageUser(history[i]) <= 100
    requires |history| * 100 < U64_LIMIT
    ensures SummaryOf(history).avgCpu <= 100
  {
    var shares := CpuShares(history);
    SumAtMost(shares, 100);
    AverageBetween(Sum(shares), |history|, 0, 100);
  }

  /** The final report: one summary per pid the map holds. */
  function Report(usages: Histories): (report: map<int, Summary>)
    requires WellFormed(usages)
    requires forall pid :: pid in usages ==> CpuDefined(usages[pid])
    ensures report.Keys == usages.Keys
  {
    map pid | pid in usages :: SummaryOf(usages[pid])
  }

  /** Each summary of a well-formed map names its own pid and counts the
      ticks its history holds. */
  lemma ReportNamesItsPid(usages: Histories, pid: int)
    requires WellFormed(usages)
    requires forall p :: p in usages ==> CpuDefined(usages[p])
    requires pid in usages
    ensures Report(usages)[pid].pid == pid
    ensures Report(usages)[pid].secondsAlive == |usages[pid]| >= 1
  {
  }
}
