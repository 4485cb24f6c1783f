/** ProcessStatus and its CPU percentages (main.go), and the lookup of a
    process's previous status in the last tick's list (getProcStatus). */
module Status {
  import opened Integers
  import opened Text

  /** One process's counters at one tick. Memory sizes are in bytes as
      parseLabeledSize returns them; CPU figures are in clock ticks; the
      `last…` fields hold the counters of the previous tick's status for the
      same pid, or 0. */
  datatype ProcessStatus = ProcessStatus(
    pid: int,
    name: string,
    fdSize: u64,         // file descriptor slots allocated
    vmPeak: u64,         // peak virtual memory size
    vmSize: u64,         // virtual memory size
    vmHWM: u64,          // peak resident set size
    vmRSS: u64,          // resident set size
    threads: u64,
    utime: u64,          // user-mode ticks of the process
    lastUtime: u64,
    stime: u64,          // kernel-mode ticks of the process
    lastStime: u64,
    timeTotal: u64,      // system-wide ticks
    lastTimeTotal: u64)

  /** Go's zero value of ProcessStatus with the given pid. */
  function Blank(pid: int): ProcessStatus
  {
    ProcessStatus(pid, "", 0, 0, 0, 0, 0, 0, 0, 0, 0, 0, 0, 0)
  }

  /** 100 * (current - last) / (total - lastTotal), every step in uint64. */
  function Percent(current: u64, last: u64, total: u64, lastTotal: u64): u64
    requires total != lastTotal
  {
    PercentInRange(current, last, total, lastTotal);
    Wrap(100 * Wrap(current - last)) / Wrap(total - lastTotal)
  }

  lemma PercentInRange(current: u64, last: u64, total: u64, lastTotal: u64)
    requires total != lastTotal
    ensures Wrap(total - lastTotal) != 0
    ensures Wrap(100 * Wrap(current - last)) / Wrap(total - lastTotal) < U64_LIMIT
  {
    WrapNonZero(total - lastTotal);
    QuotientAtMost(Wrap(100 * Wrap(current - last)), Wrap(total - lastTotal));
  }

  /** Without wrap-around the uint64 formula is the exact floored percentage. */
  lemma PercentWithoutWrap(current: u64, last: u64, total: u64, lastTotal: u64)
    requires total != lastTotal
    ensures last <= current && lastTotal < total && 100 * (current - last) < U64_LIMIT ==>
              Percent(current, last, total, lastTotal) == 100 * (current - last) / (total - lastTotal)
  {
    if last <= current && lastTotal < total && 100 * (current - last) < U64_LIMIT {
      var d := current - last;
      assert Wrap(d) == d;
      assert Wrap(100 * d) == 100 * d;
      assert Wrap(total - lastTotal) == total - lastTotal;
    }
  }

  lemma WrapNonZero(x: int)
    requires -U64_LIMIT < x < U64_LIMIT && x != 0
    ensures Wrap(x) != 0
  {
    if x < 0 {
      assert x + U64_LIMIT == Wrap(x);
    }
  }

  lemma QuotientAtMost(a: nat, b: nat)
    requires 0 < b
    ensures a / b <= a
  {
    var q := a / b;
    assert a == q * b + a % b;
    MulAtLeast(q, b);
  }

  lemma MulAtLeast(q: nat, b: nat)
    requires 1 <= b
    ensures q <= q * b
  {
    var c := b - 1;
    assert q * b == q * c + q;
  }

  /** GetCPUUsageUser: the share of system ticks spent in user mode since the
      previous tick. Dividing by a zero tick delta is a runtime panic in Go, so
      the two totals must differ. */
  function CpuUsageUser(ps: ProcessStatus): (r: u64)
    requires ps.timeTotal != ps.lastTimeTotal
    ensures ps.lastUtime <= ps.utime && ps.lastTimeTotal < ps.timeTotal && 100 * (ps.utime - ps.lastUtime) < U64_LIMIT ==>
              r == 100 * (ps.utime - ps.lastUtime) / (ps.timeTotal - ps.lastTimeTotal)
  {
    PercentWithoutWrap(ps.utime, ps.lastUtime, ps.timeTotal, ps.lastTimeTotal);
    Percent(ps.utime, ps.lastUtime, ps.timeTotal, ps.lastTimeTotal)
  }

  /** GetCPUUsageKernel: the same share for kernel-mode ticks. */
  function CpuUsageKernel(ps: ProcessStatus): (r: u64)
    requires ps.timeTotal != ps.lastTimeTotal
    ensures ps.lastStime <= ps.stime && ps.lastTimeTotal < ps.timeTotal && 100 * (ps.stime - ps.lastStime) < U64_LIMIT ==>
              r == 100 * (ps.stime - ps.lastStime) / (ps.timeTotal - ps.lastTimeTotal)
  {
    PercentWithoutWrap(ps.stime, ps.lastStime, ps.timeTotal, ps.lastTimeTotal);
    Percent(ps.stime, ps.lastStime, ps.timeTotal, ps.lastTimeTotal)
  }

  lemma ShareAtMost100(used: nat, elapsed: nat)
    requires 0 < elapsed && used <= elapsed
    ensures 100 * used / elapsed <= 100
  {
    var q := 100 * used / elapsed;
    assert q * elapsed + (100 * used) % elapsed == 100 * used;
    assert q * elapsed <= 100 * elapsed;
    MulCancel(q, 100, elapsed);
  }

  lemma MulCancel(q: nat, k: nat, e: nat)
    requires 0 < e && q * e <= k * e
    ensures q <= k
  {
    if q > k {
      assert q * e == k * e + (q - k) * e;
      MulAtLeast(q - k, e);
    }
  }

  /** While the counters grow and the process used no more ticks than the
      whole system did, the user percentage is at most 100. */
  lemma CpuUsageUserAtMost100(ps: ProcessStatus)
    requires ps.lastUtime <= ps.utime && ps.lastTimeTotal < ps.timeTotal
    requires ps.utime - ps.lastUtime <= ps.timeTotal - ps.lastTimeTotal
    requires 100 * (ps.utime - ps.lastUtime) < U64_LIMIT
    ensures CpuUsageUser(ps) <= 100
  {
    ShareAtMost100(ps.utime - ps.lastUtime, ps.timeTotal - ps.lastTimeTotal);
  }

  /** When the user counter went down by d (the pid now names another
      process), the uint64 subtraction wraps: the percentage is
      (2^64 - 100 * d) / (total delta), a huge value instead of 0. */
  lemma CpuUsageUserAfterCounterDrop(ps: ProcessStatus)
    requires ps.utime < ps.lastUtime && ps.lastTimeTotal < ps.timeTotal
    requires 100 * (ps.lastUtime - ps.utime) < U64_LIMIT
    ensures CpuUsageUser(ps) == (U64_LIMIT - 100 * (ps.lastUtime - ps.utime)) / (ps.timeTotal - ps.lastTimeTotal)
  {
    var d := ps.lastUtime - ps.utime;
    assert Wrap(ps.utime - ps.lastUtime) == U64_LIMIT - d;
    ModShift(100 * (U64_LIMIT - d), 99);
    assert Wrap(100 * (U64_LIMIT - d)) == U64_LIMIT - 100 * d;
    assert Wrap(ps.timeTotal - ps.lastTimeTotal) == ps.timeTotal - ps.lastTimeTotal;
  }

  /** The status getProcStatus takes the previous counters from: the last
      status in the list with the same pid, or the zero status when none has it. */
  function LastStatusFor(pid: int, statuses: seq<ProcessStatus>): (s: ProcessStatus)
    ensures s == Blank(0) || (s in statuses && s.pid == pid)
  {
    if statuses == [] then Blank(0)
    else if statuses[|statuses| - 1].pid == pid then statuses[|statuses| - 1]
    else LastStatusFor(pid, statuses[..|statuses| - 1])
  }

  /** With no entry for the pid, the status found is the zero status. */
  lemma {:induction false} LastStatusForAbsent(pid: int, statuses: seq<ProcessStatus>)
    requires forall i :: 0 <= i < |statuses| ==> statuses[i].pid != pid
    ensures LastStatusFor(pid, statuses) == Blank(0)
  {
    if statuses != [] {
      var front := statuses[..|statuses| - 1];
      assert forall i :: 0 <= i < |front| ==> front[i] == statuses[i];
      LastStatusForAbsent(pid, front);
    }
  }

  /** With an entry for the pid at i, the status found is an entry for the
      pid at i or later, and no later entry has the pid. */
  lemma {:induction false} LastStatusForFound(pid: int, statuses: seq<ProcessStatus>, i: int)
    requires 0 <= i < |statuses| && statuses[i].pid == pid
    ensures exists j ::
              i <= j < |statuses| && statuses[j] == LastStatusFor(pid, statuses) &&
              statuses[j].pid == pid && forall k :: j < k < |statuses| ==> statuses[k].pid != pid
  {
    var n := |statuses| - 1;
    if statuses[n].pid == pid {
      assert statuses[n] == LastStatusFor(pid, statuses);
    } else {
      var front := statuses[..n];
      assert front[i] == statuses[i];
      LastStatusForFound(pid, front, i);
      var j :| i <= j < |front| && front[j] == LastStatusFor(pid, front) &&
        front[j].pid == pid && forall k :: j < k < |front| ==> front[k].pid != pid;
      assert statuses[j] == front[j];
      assert forall k :: j < k < n ==> statuses[k] == front[k];
    }
  }

  /** The scan over lastStatuses in getProcStatus. */
  method FindLastStatus(pid: int, statuses: seq<ProcessStatus>) returns (last: ProcessStatus)
    ensures last == LastStatusFor(pid, statuses)
  {
    last := Blank(0);
    for i := 0 to |statuses|
      invariant last == LastStatusFor(pid, statuses[..i])
    {
      assert statuses[..i + 1][..i] == statuses[..i];
      if statuses[i].pid == pid {
        last := statuses[i];
      }
    }
    assert statuses[..|statuses|] == statuses;
  }
}
