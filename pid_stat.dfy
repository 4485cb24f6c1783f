/** The last part of getProcStatus (main.go): /proc/[pid]/stat is cut at
    single spaces and fields 14 and 15 of proc(5), utime and stime, are the
    tokens at indices 13 and 14. */
module PidStat {
  import opened Outcome
  import opened Integers
  import opened Text

  /** The user-mode and kernel-mode ticks of one process. */
  datatype Times = Times(utime: u64, stime: u64)

  /** The two counters, or why the monitor panics: fewer than 15 tokens, or a
      token strconv.ParseUint rejects (utime is read first). */
  function StatTimes(blob: string): Result<Times>
  {
    var tokens := Split(blob, ' ');
    if |tokens| < 15 then Err(MalformedStat(blob))
    else
      match ParseUint(tokens[13])
      case None => Err(BadNumber(tokens[13]))
      case Some(utime) =>
        match ParseUint(tokens[14])
        case None => Err(BadNumber(tokens[14]))
        case Some(stime) => Ok(Times(utime, stime))
  }

  /** On a line made of space-free fields, the reading succeeds exactly when
      there are at least 15 fields and the 14th and 15th are uint64 numbers,
      and then it yields those two numbers. */
  lemma StatTimesOfFields(fields: seq<string>)
    requires |fields| >= 1
    requires forall i :: 0 <= i < |fields| ==> ' ' !in fields[i]
    ensures |fields| < 15 ==> StatTimes(Join(fields, ' ')) == Err(MalformedStat(Join(fields, ' ')))
    ensures StatTimes(Join(fields, ' ')).Ok? <==>
      |fields| >= 15 && ParseUint(fields[13]).Some? && ParseUint(fields[14]).Some?
    ensures StatTimes(Join(fields, ' ')).Ok? ==>
      StatTimes(Join(fields, ' ')).value == Times(ParseUint(fields[13]).value, ParseUint(fields[14]).value)
  {
    SplitJoin(fields, ' ');
  }

  /** A stat line that carries utime and stime in decimal at fields 14 and
      15 reads back those two counters. */
  lemma StatTimesRoundTrip(fields: seq<string>, utime: u64, stime: u64)
    requires |fields| >= 15
    requires forall i :: 0 <= i < |fields| ==> ' ' !in fields[i]
    requires fields[13] == FormatUint(utime) && fields[14] == FormatUint(stime)
    ensures StatTimes(Join(fields, ' ')) == Ok(Times(utime, stime))
  {
    StatTimesOfFields(fields);
    ParseFormatUint(utime);
    ParseFormatUint(stime);
  }

  /** A malformed utime is reported before stime is looked at. */
  lemma StatTimesBadUtime(fields: seq<string>)
    requires |fields| >= 15
    requires forall i :: 0 <= i < |fields| ==> ' ' !in fields[i]
    requires ParseUint(fields[13]).None?
    ensures StatTimes(Join(fields, ' ')) == Err(BadNumber(fields[13]))
  {
    SplitJoin(fields, ' ');
  }
}
