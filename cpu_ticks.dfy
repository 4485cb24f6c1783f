/** The total-time reading of getProcStatus (main.go): every line of
    /proc/stat that starts with "cpu " is cut at tabs and then at spaces, and
    every word strconv.ParseUint accepts is added to the total in uint64
    arithmetic; words it rejects (the "cpu" tag, the empty words between two
    spaces) are skipped. A total of zero is a failure. */
module CpuTicks {
  import opened Outcome
  import opened Integers
  import opened Text

  /** What one word adds: its value when it parses as a uint64, else nothing. */
  function WordTicks(word: string): nat
  {
    match ParseUint(word)
    case Some(n) => n
    case None => 0
  }

  function WordsTicks(words: seq<string>): nat
  {
    if words == [] then 0
    else WordsTicks(words[..|words| - 1]) + WordTicks(words[|words| - 1])
  }

  /** One tab-separated field, cut at spaces. */
  function FieldTicks(field: string): nat
  {
    WordsTicks(Split(field, ' '))
  }

  function FieldsTicks(fields: seq<string>): nat
  {
    if fields == [] then 0
    else FieldsTicks(fields[..|fields| - 1]) + FieldTicks(fields[|fields| - 1])
  }

  /** Only lines tagged "cpu " count; the per-core "cpuN" lines do not. */
  function LineTicks(line: string): nat
  {
    if HasPrefix(line, "cpu ") then FieldsTicks(Split(line, '\t')) else 0
  }

  function LinesTicks(lines: seq<string>): nat
  {
    if lines == [] then 0
    else LinesTicks(lines[..|lines| - 1]) + LineTicks(lines[|lines| - 1])
  }

  /** The total as the uint64 accumulator holds it. */
  function TotalTicks(text: string): u64
  {
    Wrap(LinesTicks(Split(text, '\n')))
  }

  /** The total-time reading with its failure: a zero total panics. */
  function SystemTicks(text: string): (r: Result<u64>)
    ensures r.Ok? ==> r.value > 0
  {
    var total := TotalTicks(text);
    if total == 0 then Err(NoTotalTime) else Ok(total)
  }

  /** The three nested loops of getProcStatus over /proc/stat. */
  method SumCpuTicks(text: string) returns (total: u64)
    ensures total == TotalTicks(text)
  {
    var lines := Split(text, '\n');
    total := 0;
    for i := 0 to |lines|
      invariant total == Wrap(LinesTicks(lines[..i]))
    {
      var next := total;
      if HasPrefix(lines[i], "cpu ") {
        next := AddFieldsTicks(total, Split(lines[i], '\t'));
      }
      LinesStep(lines, i, total, next);
      total := next;
    }
    assert lines[..|lines|] == lines;
  }

  lemma LinesStep(lines: seq<string>, i: nat, total: u64, next: u64)
    requires i < |lines| && total == Wrap(LinesTicks(lines[..i]))
    requires next == Wrap(total + LineTicks(lines[i]))
    ensures next == Wrap(LinesTicks(lines[..i + 1]))
  {
    assert lines[..i + 1][..i] == lines[..i];
    WrapAccumulate(total, LinesTicks(lines[..i]), LineTicks(lines[i]));
  }

  /** The loop over the tab-separated fields of one "cpu " line. */
  method AddFieldsTicks(start: u64, fields: seq<string>) returns (total: u64)
    ensures total == Wrap(start + FieldsTicks(fields))
  {
    total := start;
    for j := 0 to |fields|
      invariant total == Wrap(start + FieldsTicks(fields[..j]))
    {
      var next := AddFieldTicks(total, fields[j]);
      FieldsStep(start, fields, j, total, next);
      total := next;
    }
    assert fields[..|fields|] == fields;
  }

  lemma FieldsStep(start: u64, fields: seq<string>, j: nat, total: u64, next: u64)
    requires j < |fields| && total == Wrap(start + FieldsTicks(fields[..j]))
    requires next == Wrap(total + FieldTicks(fields[j]))
    ensures next == Wrap(start + FieldsTicks(fields[..j + 1]))
  {
    assert fields[..j + 1][..j] == fields[..j];
    WrapAccumulate(total, start + FieldsTicks(fields[..j]), FieldTicks(fields[j]));
  }

  /** The loop over the space-separated words of one field. */
  method AddFieldTicks(start: u64, field: string) returns (total: u64)
    ensures total == Wrap(start + FieldTicks(field))
  {
    var words := Split(field, ' ');
    total := start;
    for k := 0 to |words|
      invariant total == Wrap(start + WordsTicks(words[..k]))
    {
      var next := total;
      match ParseUint(words[k]) {
        case Some(num) =>
          next := Wrap(total + num);
        case None =>
      }
      WordsStep(start, words, k, total, next);
      total := next;
    }
    assert words[..|words|] == words;
  }

  lemma WordsStep(start: u64, words: seq<string>, k: nat, total: u64, next: u64)
    requires k < |words| && total == Wrap(start + WordsTicks(words[..k]))
    requires next == Wrap(total + WordTicks(words[k]))
    ensures next == Wrap(start + WordsTicks(words[..k + 1]))
  {
    assert words[..k + 1][..k] == words[..k];
    WrapAccumulate(total, start + WordsTicks(words[..k]), WordTicks(words[k]));
  }

  // ---------------------------------------------------------------- properties

  /** The numbers of a line as the kernel prints them. */
  function Formatted(values: seq<u64>): (r: seq<string>)
    ensures |r| == |values|
    ensures forall i :: 0 <= i < |r| ==> r[i] == FormatUint(values[i])
  {
    seq(|values|, i requires 0 <= i < |values| => FormatUint(values[i]))
  }

  /** The aggregate line of /proc/stat: the tag, two spaces, the counters. */
  function CpuLine(values: seq<u64>): string
    requires |values| >= 1
  {
    "cpu " + " " + Join(Formatted(values), ' ')
  }

  function Naturals(values: seq<u64>): (r: seq<nat>)
    ensures |r| == |values|
    ensures forall i :: 0 <= i < |r| ==> r[i] == values[i]
  {
    seq(|values|, i requires 0 <= i < |values| => values[i] as nat)
  }

  /** Words that add nothing followed by words that add known amounts add
      the sum of those amounts. */
  lemma {:induction false} WordsTicksAfter(prefix: seq<string>, words: seq<string>, ticks: seq<nat>)
    requires WordsTicks(prefix) == 0 && |words| == |ticks|
    requires forall i :: 0 <= i < |words| ==> WordTicks(words[i]) == ticks[i]
    ensures WordsTicks(prefix + words) == Sum(ticks)
  {
    if words == [] {
      assert prefix + words == prefix;
    } else {
      var n := |words| - 1;
      var all := prefix + words;
      WordsTicksAfter(prefix, words[..n], ticks[..n]);
      assert all[..|all| - 1] == prefix + words[..n];
      assert all[|all| - 1] == words[n];
    }
  }

  /** Each printed number adds its own value. */
  lemma FormattedTicks(values: seq<u64>)
    ensures forall i :: 0 <= i < |values| ==> WordTicks(Formatted(values)[i]) == Naturals(values)[i]
  {
    forall i | 0 <= i < |values|
      ensures WordTicks(Formatted(values)[i]) == Naturals(values)[i]
    {
      ParseFormatUint(values[i]);
    }
  }

  lemma DigitsWithout(values: seq<u64>, c: char)
    requires !IsDigit(c)
    ensures forall i :: 0 <= i < |Formatted(values)| ==> c !in Formatted(values)[i]
  {
    forall i | 0 <= i < |Formatted(values)|
      ensures c !in Formatted(values)[i]
    {
      assert AllDigits(FormatUint(values[i]));
    }
  }

  /** The aggregate line counts exactly the sum of its counters. */
  lemma CpuLineTicks(values: seq<u64>)
    requires |values| >= 1
    ensures LineTicks(CpuLine(values)) == Sum(Naturals(values))
    ensures '\n' !in CpuLine(values)
  {
    var line := CpuLine(values);
    CpuLineWithout(values, '\t');
    CpuLineWithout(values, '\n');
    assert LineTicks(line) == FieldTicks(line) by {
      assert line[..4] == "cpu ";
      SplitWhole(line, '\t');
      assert FieldsTicks([line]) == FieldsTicks([]) + FieldTicks(line) by {
        assert [line][..0] == [];
      }
    }
    CpuLineWords(values);
    assert WordsTicks(["cpu", []]) == 0 by {
      assert ["cpu", []][..1] == ["cpu"];
      assert ["cpu"][..0] == [];
      assert !IsDigit('c');
    }
    FormattedTicks(values);
    WordsTicksAfter(["cpu", []], Formatted(values), Naturals(values));
  }

  /** The aggregate line holds no character other than digits, the tag and spaces. */
  lemma CpuLineWithout(values: seq<u64>, c: char)
    requires |values| >= 1 && !IsDigit(c) && c != ' ' && c !in "cpu"
    ensures c !in CpuLine(values)
  {
    DigitsWithout(values, c);
    JoinWithout(Formatted(values), ' ', c);
  }

  /** Cut at spaces, the aggregate line is the tag, an empty word and the numbers. */
  lemma CpuLineWords(values: seq<u64>)
    requires |values| >= 1
    ensures Split(CpuLine(values), ' ') == ["cpu", []] + Formatted(values)
  {
    var numbers := Join(Formatted(values), ' ');
    assert CpuLine(values) == "cpu" + [' '] + ([] + [' '] + numbers);
    SplitAfterPiece("cpu", ' ', [] + [' '] + numbers);
    SplitAfterPiece([], ' ', numbers);
    DigitsWithout(values, ' ');
    SplitJoin(Formatted(values), ' ');
  }

  /** Without a "cpu " line the total is zero. */
  lemma {:induction false} LinesTicksNone(lines: seq<string>)
    requires forall i :: 0 <= i < |lines| ==> !HasPrefix(lines[i], "cpu ")
    ensures LinesTicks(lines) == 0
  {
    if lines != [] {
      var front := lines[..|lines| - 1];
      assert forall i :: 0 <= i < |front| ==> front[i] == lines[i];
      LinesTicksNone(front);
    }
  }

  /** With one "cpu " line, the total is what that line counts. */
  lemma {:induction false} LinesTicksSingle(lines: seq<string>, k: nat)
    requires k < |lines| && HasPrefix(lines[k], "cpu ")
    requires forall i :: 0 <= i < |lines| && i != k ==> !HasPrefix(lines[i], "cpu ")
    ensures LinesTicks(lines) == LineTicks(lines[k])
  {
    var n := |lines| - 1;
    var front := lines[..n];
    assert forall i :: 0 <= i < |front| ==> front[i] == lines[i];
    if k == n {
      LinesTicksNone(front);
    } else {
      LinesTicksSingle(front, k);
    }
  }

  /** A /proc/stat whose only "cpu " line is the aggregate line gives the sum
      of its counters, when that sum is positive and fits 64 bits. */
  lemma SystemTicksOfStat(lines: seq<string>, k: nat, values: seq<u64>)
    requires |values| >= 1 && k < |lines| && lines[k] == CpuLine(values)
    requires forall i :: 0 <= i < |lines| ==> '\n' !in lines[i]
    requires forall i :: 0 <= i < |lines| && i != k ==> !HasPrefix(lines[i], "cpu ")
    requires 0 < Sum(Naturals(values)) < U64_LIMIT
    ensures SystemTicks(Join(lines, '\n')) == Ok(Sum(Naturals(values)))
  {
    SplitJoin(lines, '\n');
    CpuLineTicks(values);
    assert HasPrefix(lines[k], "cpu ");
    LinesTicksSingle(lines, k);
  }

  /** A /proc/stat without a "cpu " line is the zero-total failure. */
  lemma SystemTicksWithoutCpuLine(text: string)
    requires forall i :: 0 <= i < |Split(text, '\n')| ==> !HasPrefix(Split(text, '\n')[i], "cpu ")
    ensures SystemTicks(text) == Err(NoTotalTime)
  {
    LinesTicksNone(Split(text, '\n'));
  }
}
