/** The string functions of Go's standard library the monitor leans on,
    stated over `seq<char>`: Unicode white space, decimal numbers
    (strconv.ParseUint, strconv.Atoi, strconv.FormatUint), strings.Split,
    strings.TrimSpace and strings.HasPrefix. */
module Text {
  import opened Outcome
  import opened Integers

  // ---------------------------------------------------------------- white space

  /** unicode.IsSpace, which strings.TrimSpace and the fmt scanner both use. */
  predicate IsSpace(c: char)
  {
    c == ' ' || '\U{0009}' <= c <= '\U{000D}' || c == '\U{0085}' || c == '\U{00A0}' ||
    c == '\U{1680}' || '\U{2000}' <= c <= '\U{200A}' || c == '\U{2028}' || c == '\U{2029}' ||
    c == '\U{202F}' || c == '\U{205F}' || c == '\U{3000}'
  }

  /** The string without its leading white space. */
  function TrimLeft(s: string): (r: string)
    ensures |r| <= |s| && r == s[|s| - |r|..]
    ensures forall i :: 0 <= i < |s| - |r| ==> IsSpace(s[i])
    ensures r != [] ==> !IsSpace(r[0])
  {
    if s != [] && IsSpace(s[0]) then TrimLeft(s[1..]) else s
  }

  /** The string without its trailing white space. */
  function TrimRight(s: string): (r: string)
    ensures |r| <= |s| && r == s[..|r|]
    ensures forall i :: |r| <= i < |s| ==> IsSpace(s[i])
    ensures r != [] ==> !IsSpace(r[|r| - 1])
  {
    if s != [] && IsSpace(s[|s| - 1]) then TrimRight(s[..|s| - 1]) else s
  }

  /** strings.TrimSpace. */
  function TrimSpace(s: string): string
  {
    TrimRight(TrimLeft(s))
  }

  predicate HasPrefix(s: string, prefix: string)
  {
    |prefix| <= |s| && s[..|prefix|] == prefix
  }

  predicate HasSuffix(s: string, suffix: string)
  {
    |suffix| <= |s| && s[|s| - |suffix|..] == suffix
  }

  // ---------------------------------------------------------------- splitting

  /** strings.Split with a one-character separator: the pieces between
      separators, an empty string giving one empty piece. */
  function Split(s: string, sep: char): (parts: seq<string>)
    ensures |parts| >= 1
    ensures forall i :: 0 <= i < |parts| ==> sep !in parts[i]
  {
    SplitFrom(s, sep, [])
  }

  /** Splitting the rest of a string while the current piece holds `piece`. */
  function SplitFrom(s: string, sep: char, piece: string): (parts: seq<string>)
    requires sep !in piece
    ensures |parts| >= 1
    ensures forall i :: 0 <= i < |parts| ==> sep !in parts[i]
  {
    if s == [] then [piece]
    else if s[0] == sep then [piece] + SplitFrom(s[1..], sep, [])
    else SplitFrom(s[1..], sep, piece + [s[0]])
  }

  /** strings.Join: the pieces with the separator between them. */
  function Join(parts: seq<string>, sep: char): string
    requires |parts| >= 1
  {
    if |parts| == 1 then parts[0] else parts[0] + [sep] + Join(parts[1..], sep)
  }

  lemma JoinSplit(s: string, sep: char)
    ensures Join(Split(s, sep), sep) == s
  {
    JoinSplitFrom(s, sep, []);
  }

  lemma {:induction false} JoinSplitFrom(s: string, sep: char, piece: string)
    requires sep !in piece
    ensures Join(SplitFrom(s, sep, piece), sep) == piece + s
  {
    if s == [] {
      assert piece + s == piece;
    } else if s[0] == sep {
      JoinSplitFrom(s[1..], sep, []);
      assert [] + s[1..] == s[1..];
      assert piece + s == piece + [sep] + s[1..];
    } else {
      JoinSplitFrom(s[1..], sep, piece + [s[0]]);
      assert piece + [s[0]] + s[1..] == piece + s;
    }
  }

  /** Splitting at the first separator. */
  lemma SplitAfterPiece(w: string, sep: char, t: string)
    requires sep !in w
    ensures Split(w + [sep] + t, sep) == [w] + Split(t, sep)
  {
    SplitFromAfterPiece(w, sep, t, []);
    assert [] + w == w;
  }

  lemma {:induction false} SplitFromAfterPiece(w: string, sep: char, t: string, piece: string)
    requires sep !in w && sep !in piece
    ensures SplitFrom(w + [sep] + t, sep, piece) == [piece + w] + SplitFrom(t, sep, [])
  {
    var s := w + [sep] + t;
    if w == [] {
      assert s == [sep] + t && s[1..] == t;
      assert piece + w == piece;
    } else {
      assert s[0] == w[0] && s[1..] == w[1..] + [sep] + t;
      SplitFromAfterPiece(w[1..], sep, t, piece + [w[0]]);
      assert piece + [w[0]] + w[1..] == piece + w;
    }
  }

  /** A string without the separator is one piece. */
  lemma SplitWhole(w: string, sep: char)
    requires sep !in w
    ensures Split(w, sep) == [w]
  {
    SplitFromWhole(w, sep, []);
    assert [] + w == w;
  }

  lemma {:induction false} SplitFromWhole(w: string, sep: char, piece: string)
    requires sep !in w && sep !in piece
    ensures SplitFrom(w, sep, piece) == [piece + w]
  {
    if w == [] {
      assert piece + w == piece;
    } else {
      SplitFromWhole(w[1..], sep, piece + [w[0]]);
      assert piece + [w[0]] + w[1..] == piece + w;
    }
  }

  /** Split undoes Join when no piece contains the separator. */
  lemma {:induction false} SplitJoin(parts: seq<string>, sep: char)
    requires |parts| >= 1
    requires forall i :: 0 <= i < |parts| ==> sep !in parts[i]
    ensures Split(Join(parts, sep), sep) == parts
  {
    if |parts| == 1 {
      SplitWhole(parts[0], sep);
    } else {
      SplitJoin(parts[1..], sep);
      SplitAfterPiece(parts[0], sep, Join(parts[1..], sep));
      assert [parts[0]] + parts[1..] == parts;
    }
  }

  /** Join adds no character other than the separator. */
  lemma {:induction false} JoinWithout(parts: seq<string>, sep: char, c: char)
    requires |parts| >= 1 && c != sep
    requires forall i :: 0 <= i < |parts| ==> c !in parts[i]
    ensures c !in Join(parts, sep)
  {
    if |parts| > 1 {
      JoinWithout(parts[1..], sep, c);
    }
  }

  /** The non-empty pieces, in order (the monitor skips empty lines). */
  function NonEmpty(lines: seq<string>): (r: seq<string>)
    ensures |r| <= |lines|
    ensures forall i :: 0 <= i < |r| ==> r[i] != [] && r[i] in lines
    ensures forall l :: l in lines && l != [] ==> l in r
  {
    if lines == [] then []
    else
      var prefix := NonEmpty(lines[..|lines| - 1]);
      if lines[|lines| - 1] == [] then prefix else prefix + [lines[|lines| - 1]]
  }

  // ---------------------------------------------------------------- decimal numbers

  predicate IsDigit(c: char)
  {
    '0' <= c <= '9'
  }

  predicate AllDigits(s: string)
  {
    forall i :: 0 <= i < |s| ==> IsDigit(s[i])
  }

  function DigitValue(c: char): nat
    requires IsDigit(c)
  {
    (c as int) - ('0' as int)
  }

  function DigitChar(d: nat): (c: char)
    requires d < 10
    ensures IsDigit(c) && DigitValue(c) == d
  {
    ((('0' as int) + d) as char)
  }

  /** The value a string of decimal digits denotes. */
  function DecimalValue(s: string): nat
    requires AllDigits(s)
  {
    if s == [] then 0 else 10 * DecimalValue(s[..|s| - 1]) + DigitValue(s[|s| - 1])
  }

  /** strconv.FormatUint(n, 10): the shortest decimal rendering of n. */
  function FormatUint(n: nat): (r: string)
    ensures r != [] && AllDigits(r) && DecimalValue(r) == n
    ensures r[0] == '0' ==> n == 0
  {
    if n < 10 then [DigitChar(n)]
    else
      var prefix := FormatUint(n / 10);
      assert (prefix + [DigitChar(n % 10)])[..|prefix|] == prefix;
      prefix + [DigitChar(n % 10)]
  }

  /** strconv.ParseUint(s, 10, 64): one or more decimal digits, no sign, no
      underscores, and a value that fits 64 bits. */
  function ParseUint(s: string): Option<u64>
  {
    if s != [] && AllDigits(s) && DecimalValue(s) < U64_LIMIT then Some(DecimalValue(s)) else None
  }

  /** strconv.Atoi on a 64-bit platform: an optional sign, one or more decimal
      digits, and a value within the int64 range. */
  function Atoi(s: string): (r: Option<int>)
    ensures r.Some? ==> INT64_MIN <= r.value <= INT64_MAX
  {
    if s == [] then None
    else if s[0] == '+' || s[0] == '-' then
      var digits := s[1..];
      if digits != [] && AllDigits(digits) then
        var v: int := if s[0] == '-' then -(DecimalValue(digits) as int) else DecimalValue(digits);
        if INT64_MIN <= v <= INT64_MAX then Some(v) else None
      else None
    else if AllDigits(s) && DecimalValue(s) <= INT64_MAX then Some(DecimalValue(s))
    else None
  }

  /** ParseUint reads back what FormatUint writes. */
  lemma ParseFormatUint(n: u64)
    ensures ParseUint(FormatUint(n)) == Some(n)
  {
  }

  /** Atoi reads back the decimal rendering of every non-negative int64. */
  lemma AtoiFormatUint(n: nat)
    requires n <= INT64_MAX
    ensures Atoi(FormatUint(n)) == Some(n)
  {
    assert IsDigit(FormatUint(n)[0]);
  }
}
