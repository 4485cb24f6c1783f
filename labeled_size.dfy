/** parseLabeledSize (main.go), the reader of the memory fields of a process
    status file, as it behaves: every `fmt.Sscanf(size, "%d <label>", &num)`
    reports one value stored as soon as the number is read, whether or not the
    label after it matches, and the error that would report the mismatch is
    thrown away. So the first branch takes every input that starts with a
    number and the kB, mB and gB branches are never reached. The per-label
    scaling the function was evidently written for is kept beside it as
    ParseLabeledSizeIntended, for comparison. */
module LabeledSize {
  import opened Outcome
  import opened Integers
  import opened Text
  import opened Format

  /** The white space the fmt scanner skips before a number (in Sscanf a
      newline is not skipped). */
  function SkipBlanks(s: string): (r: string)
    ensures |r| <= |s| && r == s[|s| - |r|..]
    ensures r != [] ==> !IsSpace(r[0]) || r[0] == '\n'
    ensures forall i :: 0 <= i < |s| - |r| ==> IsSpace(s[i]) && s[i] != '\n'
  {
    if s != [] && IsSpace(s[0]) && s[0] != '\n' then
      var r := SkipBlanks(s[1..]);
      assert forall i :: 1 <= i < |s| - |r| ==> s[i] == s[1..][i - 1];
      r
    else s
  }

  /** The longest run of decimal digits at the front of s. */
  function LeadingDigits(s: string): (d: string)
    ensures AllDigits(d) && HasPrefix(s, d)
    ensures |d| < |s| ==> !IsDigit(s[|d|])
  {
    if s != [] && IsDigit(s[0]) then [s[0]] + LeadingDigits(s[1..]) else []
  }

  /** What `%d` reads into a uint64: blanks skipped, then the run of digits,
      which must be non-empty and fit in 64 bits. */
  function ScanUint(s: string): Option<u64>
  {
    var digits := LeadingDigits(SkipBlanks(s));
    if digits == [] then None else ParseUint(digits)
  }

  /** fmt.Sscanf(s, "%d" + literal, &num): how many values were stored, and
      the value. The count does not depend on the literal; the error a
      mismatched literal produces is discarded by the caller and not modelled. */
  function Sscanf(s: string, literal: string): (nat, u64)
  {
    match ScanUint(s)
    case Some(n) => (1, n)
    case None => (0, 0)
  }

  /** parseLabeledSize as written. The unit branches multiply in uint64. */
  function ParseLabeledSize(size: string): (r: Result<u64>)
    ensures ScanUint(size).Some? ==> r == Ok(ScanUint(size).value)
    ensures ScanUint(size).None? ==> r == Err(UnrecognizedSizeLabel(size))
  {
    var (bytes, b) := Sscanf(size, " B");
    if bytes == 1 then Ok(b)
    else
      var (kilo, k) := Sscanf(size, " kB");
      if kilo == 1 then Ok(Wrap(k * 1024))
      else
        var (mega, m) := Sscanf(size, " mB");
        if mega == 1 then Ok(Wrap(m * 1024 * 1024))
        else
          var (giga, g) := Sscanf(size, " gB");
          if giga == 1 then Ok(Wrap(g * 1024 * 1024 * 1024))
          else Err(UnrecognizedSizeLabel(size))
  }

  /** The reading parseLabeledSize was written for: a decimal number, one
      space and a label among B, kB, mB, gB, scaled by 1, 1024, 1024^2, 1024^3. */
  function ParseLabeledSizeIntended(size: string): Result<nat>
  {
    if HasSuffix(size, " B") then Scaled(size[..|size| - 2], 1, size)
    else if HasSuffix(size, " kB") then Scaled(size[..|size| - 3], KiB, size)
    else if HasSuffix(size, " mB") then Scaled(size[..|size| - 3], MiB, size)
    else if HasSuffix(size, " gB") then Scaled(size[..|size| - 3], GiB, size)
    else Err(UnrecognizedSizeLabel(size))
  }

  function Scaled(digits: string, unit: nat, size: string): Result<nat>
  {
    match ParseUint(digits)
    case Some(n) => Ok(n * unit)
    case None => Err(UnrecognizedSizeLabel(size))
  }

  lemma {:induction false} LeadingDigitsOf(d: string, rest: string)
    requires AllDigits(d)
    requires rest == [] || !IsDigit(rest[0])
    ensures LeadingDigits(d + rest) == d
  {
    if d != [] {
      assert (d + rest)[1..] == d[1..] + rest;
      LeadingDigitsOf(d[1..], rest);
      assert [d[0]] + d[1..] == d;
    } else {
      assert d + rest == rest;
    }
  }

  /** `%d` reads back a formatted number whatever non-digit follows it. */
  lemma ScanFormatted(n: u64, rest: string)
    requires rest == [] || !IsDigit(rest[0])
    ensures ScanUint(FormatUint(n) + rest) == Some(n)
  {
    var f := FormatUint(n);
    var s := f + rest;
    assert s[0] == f[0];
    NoBlanksBeforeDigit(s);
    LeadingDigitsOf(f, rest);
    ParseFormatUint(n);
  }

  lemma NoBlanksBeforeDigit(s: string)
    requires s != [] && IsDigit(s[0])
    ensures SkipBlanks(s) == s
  {
    assert !IsSpace(s[0]);
  }

  /** As written, the label is never looked at: a number followed by any
      label, known or not, reads as the bare number. */
  lemma ParseLabeledSizeIgnoresLabel(n: u64, suffix: string)
    requires suffix == [] || !IsDigit(suffix[0])
    ensures ParseLabeledSize(FormatUint(n) + suffix) == Ok(n)
  {
    ScanFormatted(n, suffix);
  }

  /** "5 kB" reads as 5, not 5120. */
  lemma KilobytesReadAsBytes()
    ensures ParseLabeledSize("5 kB") == Ok(5)
    ensures ParseLabeledSizeIntended("5 kB") == Ok(5 * 1024)
  {
    assert "5 kB" == FormatUint(5) + UnitLabel(KiB);
    ParseLabeledSizeIgnoresLabel(5, UnitLabel(KiB));
    ParseLabeledSizeIntendedScales(5, KiB);
  }

  /** The intended reading scales a formatted number by its label's unit. */
  lemma ParseLabeledSizeIntendedScales(n: u64, g: nat)
    requires g == 1 || g == KiB || g == MiB || g == GiB
    ensures ParseLabeledSizeIntended(FormatUint(n) + UnitLabel(g)) == Ok(n * g)
  {
    var f := FormatUint(n);
    ParseFormatUint(n);
    if g == 1 {
      IntendedReadsLabel(f, " B", 1);
    } else if g == KiB {
      IntendedReadsLabel(f, " kB", KiB);
    } else if g == MiB {
      IntendedReadsLabel(f, " mB", MiB);
    } else {
      IntendedReadsLabel(f, " gB", GiB);
    }
  }

  /** Whatever precedes a label, the intended reading scales it by that label's unit. */
  lemma IntendedReadsLabel(f: string, suffix: string, g: nat)
    requires (suffix, g) in {(" B", 1), (" kB", KiB), (" mB", MiB), (" gB", GiB)}
    ensures ParseLabeledSizeIntended(f + suffix) == Scaled(f, g, f + suffix)
  {
    var s := f + suffix;
    SuffixOf(f, suffix);
    if g != 1 {
      assert s[|s| - 2] == suffix[1] != ' ';
      assert s[|s| - 3..][1] == suffix[1];
    }
  }

  lemma SuffixOf(f: string, suffix: string)
    ensures HasSuffix(f + suffix, suffix)
    ensures (f + suffix)[..|f|] == f
  {
    assert (f + suffix)[|f|..] == suffix;
  }

  /** Round trip under the intended reading: formatting a size and reading it
      back gives the size rounded down to a multiple of its granularity, so
      less than one unit is lost, and nothing for sizes kept in bytes. */
  lemma FormatSizeRoundTrip(size: u64)
    ensures var g := Granularity(size);
      ParseLabeledSizeIntended(FormatSize(size)) == Ok(size / g * g) &&
      size / g * g <= size < size / g * g + g
  {
    var g := Granularity(size);
    var q: u64 := size / g;
    FormatSizeUnitChoice(size);
    assert FormatSize(size) == FormatUint(q) + UnitLabel(g);
    ParseLabeledSizeIntendedScales(q, g);
    FloorMultiple(size, g);
  }

  lemma FloorMultiple(a: nat, g: nat)
    requires 0 < g
    ensures a / g * g <= a < a / g * g + g
  {
    assert a == a / g * g + a % g;
  }

  /** As written, reading a formatted size back gives the printed number
      without its unit: for sizes above 1024 that is size / granularity. */
  lemma FormatSizeThroughParseLabeledSize(size: u64)
    ensures ParseLabeledSize(FormatSize(size)) == Ok(size / Granularity(size))
    ensures size > KiB ==> ParseLabeledSize(FormatSize(size)) != Ok(size)
  {
    var g := Granularity(size);
    var q: u64 := size / g;
    FormatSizeUnitChoice(size);
    ReadsNumberBack(FormatSize(size), q, UnitLabel(g));
    if size > KiB {
      QuotientSmaller(size, g);
    }
  }

  lemma ReadsNumberBack(s: string, q: u64, suffix: string)
    requires s == FormatUint(q) + suffix && suffix != [] && suffix[0] == ' '
    ensures ParseLabeledSize(s) == Ok(q)
  {
    ParseLabeledSizeIgnoresLabel(q, suffix);
  }

  lemma QuotientSmaller(a: nat, g: nat)
    requires 2 <= g && 1 <= a
    ensures a / g < a
  {
    var q := a / g;
    assert a == q * g + a % g;
    assert q * g >= q * 2;
  }
}
