/** getChildrenPids (main.go) on the output of `pgrep -P pid`: no output
    means no children (pgrep also exits with an error then, which is why the
    length is checked first); otherwise an error of the command is a
    failure, and every non-empty output line is one child pid. */
module Children {
  import opened Outcome
  import opened Integers
  import opened Text

  /** The pids on the output lines, in order. Empty lines are skipped and a
      line strconv.Atoi rejects is a failure. */
  function PidsOfLines(lines: seq<string>): Result<seq<int>>
  {
    if lines == [] then Ok([])
    else
      match PidsOfLines(lines[..|lines| - 1])
      case Err(e) => Err(e)
      case Ok(pids) =>
        var line := lines[|lines| - 1];
        if line == [] then Ok(pids)
        else
          match Atoi(line)
          case None => Err(BadNumber(line))
          case Some(pid) => Ok(pids + [pid])
  }

  /** getChildrenPids, given pgrep's output and whether pgrep reported an
      error. */
  function ChildPids(output: string, failed: bool): Result<seq<int>>
  {
    if output == [] then Ok([])
    else if failed then Err(ChildListingFailed)
    else PidsOfLines(Split(output, '\n'))
  }

  /** The loop of getChildrenPids that appends one pid per line. */
  method ParseChildPids(output: string, failed: bool) returns (r: Result<seq<int>>)
    ensures r == ChildPids(output, failed)
  {
    if output == [] {
      return Ok([]);
    }
    if failed {
      return Err(ChildListingFailed);
    }
    var lines := Split(output, '\n');
    var pids: seq<int> := [];
    for i := 0 to |lines|
      invariant PidsOfLines(lines[..i]) == Ok(pids)
    {
      assert lines[..i + 1][..i] == lines[..i];
      if lines[i] != [] {
        var pid := Atoi(lines[i]);
        if pid.None? {
          PidsOfLinesFailureSticks(lines, i + 1);
          return Err(BadNumber(lines[i]));
        }
        pids := pids + [pid.value];
      }
    }
    assert lines[..|lines|] == lines;
    r := Ok(pids);
  }

  lemma {:induction false} PidsOfLinesFailureSticks(lines: seq<string>, n: nat)
    requires n <= |lines|
    requires PidsOfLines(lines[..n]).Err?
    ensures PidsOfLines(lines) == PidsOfLines(lines[..n])
    decreases |lines| - n
  {
    if n < |lines| {
      assert lines[..n + 1][..n] == lines[..n];
      PidsOfLinesFailureSticks(lines, n + 1);
    } else {
      assert lines[..n] == lines;
    }
  }

  // ---------------------------------------------------------------- properties

  /** Reading succeeds exactly when every non-empty line is an int; the pids
      are then the values of the non-empty lines, one each, in order. */
  lemma {:induction false} PidsOfLinesOk(lines: seq<string>)
    ensures PidsOfLines(lines).Ok? <==>
      forall i :: 0 <= i < |lines| && lines[i] != [] ==> Atoi(lines[i]).Some?
    ensures PidsOfLines(lines).Ok? ==>
      var pids := PidsOfLines(lines).value;
      |pids| == |NonEmpty(lines)| &&
      forall i :: 0 <= i < |pids| ==> Atoi(NonEmpty(lines)[i]) == Some(pids[i])
  {
    if lines != [] {
      var prefix := lines[..|lines| - 1];
      PidsOfLinesOk(prefix);
      assert forall i :: 0 <= i < |prefix| ==> prefix[i] == lines[i];
    }
  }

  /** The output lines pgrep prints for some pids: each in decimal, each
      followed by a newline. */
  function PgrepLines(pids: seq<nat>): (lines: seq<string>)
    ensures |lines| == |pids|
    ensures forall i :: 0 <= i < |pids| ==> lines[i] == FormatUint(pids[i])
  {
    seq(|pids|, i requires 0 <= i < |pids| => FormatUint(pids[i]))
  }

  function PgrepOutput(pids: seq<nat>): string
  {
    Join(PgrepLines(pids) + [""], '\n')
  }

  /** Reading pgrep's output gives back its pids, in order; with no children
      the output is empty and even a failed pgrep gives no children. */
  lemma ChildPidsRoundTrip(pids: seq<nat>, failed: bool)
    requires forall i :: 0 <= i < |pids| ==> pids[i] <= INT64_MAX
    requires failed ==> pids == []
    ensures ChildPids(PgrepOutput(pids), failed) == Ok(pids)
  {
    var lines := PgrepLines(pids);
    if pids == [] {
      assert lines + [""] == [""];
    } else {
      forall i | 0 <= i < |lines + [""]|
        ensures '\n' !in (lines + [""])[i]
      {
        if i < |lines| {
          assert AllDigits(FormatUint(pids[i]));
        }
      }
      SplitJoin(lines + [""], '\n');
      assert (lines + [""])[..|lines|] == lines;
      PidsOfPgrepLines(pids);
      assert PgrepOutput(pids) != [] by {
        assert |lines + [""]| > 1;
      }
    }
  }

  lemma {:induction false} PidsOfPgrepLines(pids: seq<nat>)
    requires forall i :: 0 <= i < |pids| ==> pids[i] <= INT64_MAX
    ensures PidsOfLines(PgrepLines(pids)) == Ok(pids)
  {
    if pids != [] {
      var n := |pids| - 1;
      assert PgrepLines(pids)[..n] == PgrepLines(pids[..n]);
      PidsOfPgrepLines(pids[..n]);
      AtoiFormatUint(pids[n]);
      assert pids[..n] + [pids[n]] == pids;
    }
  }
}
