/** getProcStatus (main.go) on the three texts it reads for one process:
    the previous counters come from the last tick's statuses, the named fields
    from /proc/[pid]/status, the system-wide total from /proc/stat and the
    process's own ticks from /proc/[pid]/stat. */
module ProcStatus {
  import opened Outcome
  import opened Integers
  import opened Text
  import opened Status
  import StatusFile
  import CpuTicks
  import PidStat

  /** The contents of /proc/[pid]/status, /proc/stat and /proc/[pid]/stat
      at the moment the monitor reads them. */
  datatype Reading = Reading(statusText: string, systemStat: string, pidStat: string)

  /** The status before any file is read: the pid, and the counters of the
      previous status for the pid (all zero when there is none). */
  function Initial(pid: int, lastStatuses: seq<ProcessStatus>): ProcessStatus
  {
    var last := LastStatusFor(pid, lastStatuses);
    Blank(pid).(lastUtime := last.utime, lastStime := last.stime, lastTimeTotal := last.timeTotal)
  }

  /** getProcStatus: the status of one process, or the reason it panics. */
  function ProcStatusOf(pid: int, lastStatuses: seq<ProcessStatus>, reading: Reading): Result<ProcessStatus>
  {
    match StatusFile.StatusLines(Initial(pid, lastStatuses), Split(reading.statusText, '\n'))
    case Err(e) => Err(e)
    case Ok(status) =>
      match CpuTicks.SystemTicks(reading.systemStat)
      case Err(e) => Err(e)
      case Ok(total) =>
        match PidStat.StatTimes(reading.pidStat)
        case Err(e) => Err(e)
        case Ok(times) => Ok(status.(timeTotal := total, utime := times.utime, stime := times.stime))
  }

  /** getProcStatus step by step: the scan for the previous status, the
      status-file loop, the tick-summing loops, and the stat fields. */
  method GetProcStatus(pid: int, lastStatuses: seq<ProcessStatus>, reading: Reading)
    returns (r: Result<ProcessStatus>)
    ensures r == ProcStatusOf(pid, lastStatuses, reading)
  {
    var last := FindLastStatus(pid, lastStatuses);
    var status := Blank(pid).(lastUtime := last.utime, lastStime := last.stime, lastTimeTotal := last.timeTotal);
    var parsed := StatusFile.ParseStatusFile(status, reading.statusText);
    if parsed.Err? {
      return Err(parsed.failure);
    }
    status := parsed.value;
    var total := CpuTicks.SumCpuTicks(reading.systemStat);
    if total == 0 {
      return Err(NoTotalTime);
    }
    var times := PidStat.StatTimes(reading.pidStat);
    if times.Err? {
      return Err(times.failure);
    }
    r := Ok(status.(timeTotal := total, utime := times.value.utime, stime := times.value.stime));
  }

  /** A status that was read carries the pid, the previous counters of the
      last status with that pid, a non-zero system total summed from
      /proc/stat, the process's ticks from its stat line, and the fields the
      status file set. */
  lemma ProcStatusOfOk(pid: int, lastStatuses: seq<ProcessStatus>, reading: Reading)
    requires ProcStatusOf(pid, lastStatuses, reading).Ok?
    ensures var r := ProcStatusOf(pid, lastStatuses, reading).value;
      var last := LastStatusFor(pid, lastStatuses);
      r.pid == pid && r.lastUtime == last.utime && r.lastStime == last.stime &&
      r.lastTimeTotal == last.timeTotal &&
      r.timeTotal == CpuTicks.TotalTicks(reading.systemStat) && r.timeTotal != 0 &&
      PidStat.StatTimes(reading.pidStat) == Ok(PidStat.Times(r.utime, r.stime))
    ensures var r := ProcStatusOf(pid, lastStatuses, reading).value;
      var fromFile := StatusFile.StatusLines(Initial(pid, lastStatuses), Split(reading.statusText, '\n'));
      fromFile.Ok? && forall key :: StatusFile.FieldOf(r, key) == StatusFile.FieldOf(fromFile.value, key)
  {
    StatusFile.StatusLinesKeepCounters(Initial(pid, lastStatuses), Split(reading.statusText, '\n'));
  }

  /** A process seen for the first time has no previous counters, so its
      user share is 100 * utime / total, not 0. */
  lemma FirstObservation(pid: int, lastStatuses: seq<ProcessStatus>, reading: Reading)
    requires forall i :: 0 <= i < |lastStatuses| ==> lastStatuses[i].pid != pid
    requires ProcStatusOf(pid, lastStatuses, reading).Ok?
    ensures var r := ProcStatusOf(pid, lastStatuses, reading).value;
      r.lastTimeTotal == 0 && r.timeTotal != r.lastTimeTotal &&
      (100 * r.utime < U64_LIMIT ==> CpuUsageUser(r) == 100 * r.utime / r.timeTotal)
  {
    LastStatusForAbsent(pid, lastStatuses);
    ProcStatusOfOk(pid, lastStatuses, reading);
  }

  /** A process seen before takes its previous counters from the last
      status in the list with its pid. */
  lemma RepeatObservation(pid: int, lastStatuses: seq<ProcessStatus>, reading: Reading, i: int)
    requires 0 <= i < |lastStatuses| && lastStatuses[i].pid == pid
    requires ProcStatusOf(pid, lastStatuses, reading).Ok?
    ensures var r := ProcStatusOf(pid, lastStatuses, reading).value;
      exists j :: i <= j < |lastStatuses| && lastStatuses[j].pid == pid &&
        r.lastUtime == lastStatuses[j].utime && r.lastStime == lastStatuses[j].stime &&
        r.lastTimeTotal == lastStatuses[j].timeTotal &&
        forall k :: j < k < |lastStatuses| ==> lastStatuses[k].pid != pid
  {
    LastStatusForFound(pid, lastStatuses, i);
    ProcStatusOfOk(pid, lastStatuses, reading);
  }
}
