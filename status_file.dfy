/** The reading of /proc/[pid]/status inside getProcStatus (main.go): the
    text is split into lines, empty lines are skipped, every other line must
    split on ':' into exactly two parts, key and value are trimmed, and the
    seven keys the monitor knows set one field each. */
module StatusFile {
  import opened Outcome
  import opened Integers
  import opened Text
  import opened Status
  import LabeledSize

  /** The cases of the switch on the key. */
  datatype Key = Name | FDSize | VmPeak | VmSize | VmHWM | VmRSS | Threads

  /** The case a trimmed key selects, if any. */
  function KeyNamed(key: string): Option<Key>
  {
    if key == "Name" then Some(Name)
    else if key == "FDSize" then Some(FDSize)
    else if key == "VmPeak" then Some(VmPeak)
    else if key == "VmSize" then Some(VmSize)
    else if key == "VmHWM" then Some(VmHWM)
    else if key == "VmRSS" then Some(VmRSS)
    else if key == "Threads" then Some(Threads)
    else None
  }

  /** A line that strings.Split cuts at ':' into exactly two parts. */
  predicate IsPair(line: string)
  {
    |Split(line, ':')| == 2
  }

  function KeyOf(line: string): string
    requires IsPair(line)
  {
    TrimSpace(Split(line, ':')[0])
  }

  function ValueOf(line: string): string
    requires IsPair(line)
  {
    TrimSpace(Split(line, ':')[1])
  }

  /** One iteration of the line loop: the status after the line, or the
      reason the monitor panics on it. */
  function ApplyStatusLine(status: ProcessStatus, line: string): Result<ProcessStatus>
  {
    if line == [] then Ok(status)
    else if !IsPair(line) then Err(MalformedStatusLine(line))
    else
      var value := ValueOf(line);
      match KeyNamed(KeyOf(line))
      case None => Ok(status)
      case Some(Name) => Ok(status.(name := value))
      case Some(FDSize) =>
        (match ParseUint(value)
         case Some(n) => Ok(status.(fdSize := n))
         case None => Err(BadNumber(value)))
      case Some(VmPeak) =>
        (match LabeledSize.ParseLabeledSize(value)
         case Ok(n) => Ok(status.(vmPeak := n))
         case Err(e) => Err(e))
      case Some(VmSize) =>
        (match LabeledSize.ParseLabeledSize(value)
         case Ok(n) => Ok(status.(vmSize := n))
         case Err(e) => Err(e))
      case Some(VmHWM) =>
        (match LabeledSize.ParseLabeledSize(value)
         case Ok(n) => Ok(status.(vmHWM := n))
         case Err(e) => Err(e))
      case Some(VmRSS) =>
        (match LabeledSize.ParseLabeledSize(value)
         case Ok(n) => Ok(status.(vmRSS := n))
         case Err(e) => Err(e))
      case Some(Threads) =>
        (match ParseUint(value)
         case Some(n) => Ok(status.(threads := n))
         case None => Err(BadNumber(value)))
  }

  /** The status after a sequence of lines; the first failing line stops it. */
  function StatusLines(init: ProcessStatus, lines: seq<string>): Result<ProcessStatus>
  {
    if lines == [] then Ok(init)
    else
      match StatusLines(init, lines[..|lines| - 1])
      case Err(e) => Err(e)
      case Ok(status) => ApplyStatusLine(status, lines[|lines| - 1])
  }

  /** The line loop of getProcStatus over the text of the status file. */
  method ParseStatusFile(init: ProcessStatus, text: string) returns (r: Result<ProcessStatus>)
    ensures r == StatusLines(init, Split(text, '\n'))
  {
    var lines := Split(text, '\n');
    var status := init;
    for i := 0 to |lines|
      invariant StatusLines(init, lines[..i]) == Ok(status)
    {
      var step := ApplyStatusLine(status, lines[i]);
      StatusLinesStep(init, lines, i, status);
      if step.Err? {
        StatusLinesFailureSticks(init, lines, i + 1);
        return step;
      }
      status := step.value;
    }
    assert lines[..|lines|] == lines;
    r := Ok(status);
  }

  /** One more line extends the fold by one step. */
  lemma StatusLinesStep(init: ProcessStatus, lines: seq<string>, i: nat, status: ProcessStatus)
    requires i < |lines| && StatusLines(init, lines[..i]) == Ok(status)
    ensures StatusLines(init, lines[..i + 1]) == ApplyStatusLine(status, lines[i])
  {
    assert lines[..i + 1][..i] == lines[..i];
  }

  // ---------------------------------------------------------------- specification

  /** The value of a field a known key sets. */
  datatype FieldValue = TextValue(text: string) | NumberValue(number: u64)

  function FieldOf(status: ProcessStatus, key: Key): FieldValue
  {
    match key
    case Name => TextValue(status.name)
    case FDSize => NumberValue(status.fdSize)
    case VmPeak => NumberValue(status.vmPeak)
    case VmSize => NumberValue(status.vmSize)
    case VmHWM => NumberValue(status.vmHWM)
    case VmRSS => NumberValue(status.vmRSS)
    case Threads => NumberValue(status.threads)
  }

  /** The known key a line sets, if it is a non-empty `key: value` pair. */
  function LineKey(line: string): Option<Key>
  {
    if line != [] && IsPair(line) then KeyNamed(KeyOf(line)) else None
  }

  /** What a line with a known key assigns, read from the line alone: the
      name as text, FDSize and Threads by strconv.ParseUint, the memory sizes
      by parseLabeledSize. */
  function LineValue(line: string): (r: Result<FieldValue>)
    requires LineKey(line).Some?
    ensures r.Ok? ==> (r.value.TextValue? <==> LineKey(line).value == Name)
  {
    var value := ValueOf(line);
    match LineKey(line).value
    case Name => Ok(TextValue(value))
    case FDSize => ParsedNumber(value)
    case Threads => ParsedNumber(value)
    case _ => ParsedSize(value)
  }

  function ParsedNumber(value: string): (r: Result<FieldValue>)
    ensures r.Ok? ==> r.value.NumberValue?
  {
    match ParseUint(value)
    case Some(n) => Ok(NumberValue(n))
    case None => Err(BadNumber(value))
  }

  function ParsedSize(value: string): (r: Result<FieldValue>)
    ensures r.Ok? ==> r.value.NumberValue?
  {
    match LabeledSize.ParseLabeledSize(value)
    case Ok(n) => Ok(NumberValue(n))
    case Err(e) => Err(e)
  }

  /** A line the loop gets past. */
  predicate WellFormedLine(line: string)
  {
    line == [] || (IsPair(line) && (LineKey(line).Some? ==> LineValue(line).Ok?))
  }

  /** The fields the status file never touches: the pid and the CPU counters. */
  predicate SameCounters(a: ProcessStatus, b: ProcessStatus)
  {
    a.pid == b.pid && a.utime == b.utime && a.lastUtime == b.lastUtime &&
    a.stime == b.stime && a.lastStime == b.lastStime &&
    a.timeTotal == b.timeTotal && a.lastTimeTotal == b.lastTimeTotal
  }

  /** One line fails exactly when it is not well formed; an empty line or
      an unknown key changes nothing, and a line that is not one `key: value`
      pair fails with that line. */
  lemma ApplyStatusLineOk(status: ProcessStatus, line: string)
    ensures ApplyStatusLine(status, line).Ok? <==> WellFormedLine(line)
    ensures line == [] ==> ApplyStatusLine(status, line) == Ok(status)
    ensures line != [] && !IsPair(line) ==> ApplyStatusLine(status, line) == Err(MalformedStatusLine(line))
    ensures line != [] && IsPair(line) && LineKey(line).None? ==> ApplyStatusLine(status, line) == Ok(status)
  {
    if LineKey(line).Some? {
      ApplyKnownLine(status, line);
    }
  }

  /** The status with the field of a known key replaced by a value of
      that field's kind. */
  function Assign(status: ProcessStatus, key: Key, v: FieldValue): (r: ProcessStatus)
    requires v.TextValue? <==> key == Name
  {
    match key
    case Name => status.(name := v.text)
    case FDSize => status.(fdSize := v.number)
    case VmPeak => status.(vmPeak := v.number)
    case VmSize => status.(vmSize := v.number)
    case VmHWM => status.(vmHWM := v.number)
    case VmRSS => status.(vmRSS := v.number)
    case Threads => status.(threads := v.number)
  }

  /** Assigning one field sets exactly that field. */
  lemma AssignSetsOneField(status: ProcessStatus, key: Key, v: FieldValue)
    requires v.TextValue? <==> key == Name
    ensures FieldOf(Assign(status, key, v), key) == v
    ensures SameCounters(Assign(status, key, v), status)
    ensures forall k :: k != key ==> FieldOf(Assign(status, key, v), k) == FieldOf(status, k)
  {
  }

  /** A line with a known key sets that key's field to the line's value and
      leaves every other field as it was; a value that does not parse is the
      failure of the whole line. */
  lemma ApplyKnownLine(status: ProcessStatus, line: string)
    requires LineKey(line).Some?
    ensures LineValue(line).Err? ==> ApplyStatusLine(status, line) == Err(LineValue(line).failure)
    ensures LineValue(line).Ok? ==>
      LineValue(line).value.TextValue? == (LineKey(line).value == Name) &&
      ApplyStatusLine(status, line) == Ok(Assign(status, LineKey(line).value, LineValue(line).value))
    ensures ApplyStatusLine(status, line).Ok? ==>
      var r := ApplyStatusLine(status, line).value;
      FieldOf(r, LineKey(line).value) == LineValue(line).value && SameCounters(r, status) &&
      forall k :: k != LineKey(line).value ==> FieldOf(r, k) == FieldOf(status, k)
  {
    var key := LineKey(line).value;
    KnownLineCase(status, line, key);
    if LineValue(line).Ok? {
      AssignSetsOneField(status, key, LineValue(line).value);
    }
  }

  lemma KnownLineCase(status: ProcessStatus, line: string, key: Key)
    requires LineKey(line) == Some(key)
    ensures LineValue(line).Err? ==> ApplyStatusLine(status, line) == Err(LineValue(line).failure)
    ensures LineValue(line).Ok? ==>
      (LineValue(line).value.TextValue? <==> key == Name) &&
      ApplyStatusLine(status, line) == Ok(Assign(status, key, LineValue(line).value))
  {
    var value := ValueOf(line);
    assert ApplyStatusLine(status, line) ==
      match key
      case Name => Ok(status.(name := value))
      case FDSize =>
        (match ParseUint(value)
         case Some(n) => Ok(status.(fdSize := n))
         case None => Err(BadNumber(value)))
      case VmPeak =>
        (match LabeledSize.ParseLabeledSize(value)
         case Ok(n) => Ok(status.(vmPeak := n))
         case Err(e) => Err(e))
      case VmSize =>
        (match LabeledSize.ParseLabeledSize(value)
         case Ok(n) => Ok(status.(vmSize := n))
         case Err(e) => Err(e))
      case VmHWM =>
        (match LabeledSize.ParseLabeledSize(value)
         case Ok(n) => Ok(status.(vmHWM := n))
         case Err(e) => Err(e))
      case VmRSS =>
        (match LabeledSize.ParseLabeledSize(value)
         case Ok(n) => Ok(status.(vmRSS := n))
         case Err(e) => Err(e))
      case Threads =>
        (match ParseUint(value)
         case Some(n) => Ok(status.(threads := n))
         case None => Err(BadNumber(value)));
  }

  lemma {:induction false} StatusLinesFailureSticks(init: ProcessStatus, lines: seq<string>, n: nat)
    requires n <= |lines|
    requires StatusLines(init, lines[..n]).Err?
    ensures StatusLines(init, lines).Err? && StatusLines(init, lines) == StatusLines(init, lines[..n])
    decreases |lines| - n
  {
    if n < |lines| {
      assert lines[..n + 1][..n] == lines[..n];
      StatusLinesFailureSticks(init, lines, n + 1);
    } else {
      assert lines[..n] == lines;
    }
  }

  /** Parsing fails exactly when some line is not well formed. */
  lemma StatusLinesFail(init: ProcessStatus, lines: seq<string>)
    ensures StatusLines(init, lines).Err? <==> exists i :: 0 <= i < |lines| && !WellFormedLine(lines[i])
  {
    if exists i :: 0 <= i < |lines| && !WellFormedLine(lines[i]) {
      var i :| 0 <= i < |lines| && !WellFormedLine(lines[i]);
      StatusLinesFailAt(init, lines, i);
    } else {
      StatusLinesWellFormed(init, lines);
    }
  }

  /** A line that is not well formed makes the whole file fail, whether an
      earlier line already failed or the failure starts at that line. */
  lemma StatusLinesFailAt(init: ProcessStatus, lines: seq<string>, i: nat)
    requires i < |lines| && !WellFormedLine(lines[i])
    ensures StatusLines(init, lines).Err?
  {
    var before := StatusLines(init, lines[..i]);
    if before.Err? {
      StatusLinesFailureSticks(init, lines, i);
    } else {
      ApplyStatusLineOk(before.value, lines[i]);
      StatusLinesStep(init, lines, i, before.value);
      StatusLinesFailureSticks(init, lines, i + 1);
    }
  }

  /** A file whose every line is well formed is read without failure. */
  lemma {:induction false} StatusLinesWellFormed(init: ProcessStatus, lines: seq<string>)
    requires forall i :: 0 <= i < |lines| ==> WellFormedLine(lines[i])
    ensures StatusLines(init, lines).Ok?
  {
    if lines != [] {
      var prefix := lines[..|lines| - 1];
      assert forall i :: 0 <= i < |prefix| ==> prefix[i] == lines[i];
      StatusLinesWellFormed(init, prefix);
      ApplyStatusLineOk(StatusLines(init, prefix).value, lines[|lines| - 1]);
    }
  }

  /** Parsing never changes the pid or the CPU counters it starts from. */
  lemma {:induction false} StatusLinesKeepCounters(init: ProcessStatus, lines: seq<string>)
    requires StatusLines(init, lines).Ok?
    ensures SameCounters(StatusLines(init, lines).value, init)
  {
    if lines != [] {
      var prefix := lines[..|lines| - 1];
      var last := lines[|lines| - 1];
      StatusLinesKeepCounters(init, prefix);
      ApplyStatusLineOk(StatusLines(init, prefix).value, last);
      if LineKey(last).Some? {
        ApplyKnownLine(StatusLines(init, prefix).value, last);
      }
    }
  }

  /** A later line with the same key overwrites an earlier one: a known
      field ends up with the value of the last line that sets it. */
  lemma {:induction false} StatusLinesLastWins(init: ProcessStatus, lines: seq<string>, i: nat)
    requires StatusLines(init, lines).Ok?
    requires i < |lines| && LineKey(lines[i]).Some?
    requires forall j :: i < j < |lines| ==> LineKey(lines[j]) != LineKey(lines[i])
    ensures LineValue(lines[i]).Ok?
    ensures FieldOf(StatusLines(init, lines).value, LineKey(lines[i]).value) == LineValue(lines[i]).value
  {
    var prefix := lines[..|lines| - 1];
    var last := lines[|lines| - 1];
    assert StatusLines(init, prefix).Ok?;
    ApplyStatusLineOk(StatusLines(init, prefix).value, last);
    if LineKey(last).Some? {
      ApplyKnownLine(StatusLines(init, prefix).value, last);
    }
    if i < |lines| - 1 {
      assert prefix[i] == lines[i];
      StatusLinesLastWins(init, prefix, i);
    }
  }

  /** A known field that no line sets keeps its starting value. */
  lemma {:induction false} StatusLinesKeyAbsent(init: ProcessStatus, lines: seq<string>, key: Key)
    requires StatusLines(init, lines).Ok?
    requires forall j :: 0 <= j < |lines| ==> LineKey(lines[j]) != Some(key)
    ensures FieldOf(StatusLines(init, lines).value, key) == FieldOf(init, key)
  {
    if lines != [] {
      var prefix := lines[..|lines| - 1];
      assert StatusLines(init, prefix).Ok?;
      StatusLinesKeyAbsent(init, prefix, key);
      var last := lines[|lines| - 1];
      ApplyStatusLineOk(StatusLines(init, prefix).value, last);
      if LineKey(last).Some? {
        ApplyKnownLine(StatusLines(init, prefix).value, last);
      }
    }
  }

  /** Empty lines are skipped: dropping them gives the same result. */
  lemma {:induction false} StatusLinesSkipEmpty(init: ProcessStatus, lines: seq<string>)
    ensures StatusLines(init, NonEmpty(lines)) == StatusLines(init, lines)
  {
    if lines != [] {
      var prefix := lines[..|lines| - 1];
      StatusLinesSkipEmpty(init, prefix);
      var last := lines[|lines| - 1];
      if last != [] {
        assert (NonEmpty(prefix) + [last])[..|NonEmpty(prefix)|] == NonEmpty(prefix);
      } else {
        match StatusLines(init, prefix)
        case Ok(s) => ApplyStatusLineOk(s, last);
        case Err(_) =>
      }
    }
  }
}
