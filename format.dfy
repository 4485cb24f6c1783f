/** Presentation helpers of the monitor: formatSize and pad (main.go). */
module Format {
  import opened Integers
  import opened Text

  const KiB: nat := 1024
  const MiB: nat := 1024 * 1024
  const GiB: nat := 1024 * 1024 * 1024

  /** formatSize: the floored number of the largest unit the size strictly
      exceeds, with its label; sizes up to and including 1024 stay in bytes. */
  function FormatSize(size: u64): string
  {
    if size > GiB then FormatUint(size / GiB) + " gB"
    else if size > MiB then FormatUint(size / MiB) + " mB"
    else if size > KiB then FormatUint(size / KiB) + " kB"
    else FormatUint(size) + " B"
  }

  /** The unit formatSize divides by: the first of 1024^3, 1024^2, 1024 that
      the size strictly exceeds, and 1 when it exceeds none. */
  function Granularity(size: u64): (g: nat)
    ensures g == 1 || g == KiB || g == MiB || g == GiB
    ensures g == 1 <==> size <= KiB
    ensures g > 1 ==> g < size && (g == GiB || size <= g * KiB)
  {
    if size > GiB then GiB else if size > MiB then MiB else if size > KiB then KiB else 1
  }

  /** The label formatSize prints after a number of the given unit. */
  function UnitLabel(g: nat): string
  {
    if g == GiB then " gB" else if g == MiB then " mB" else if g == KiB then " kB" else " B"
  }

  lemma DivisionBounds(a: nat, g: nat, k: nat)
    requires 0 < g < a && a <= k * g
    ensures 1 <= a / g <= k
  {
    var q := a / g;
    assert a == q * g + a % g;
  }

  /** formatSize prints the size in its granularity, with that unit's label;
      in bytes the number is the size itself, otherwise it is at least 1, and
      below gigabytes at most 1024. */
  lemma {:induction false} FormatSizeUnitChoice(size: u64)
    ensures FormatSize(size) == FormatUint(size / Granularity(size)) + UnitLabel(Granularity(size))
    ensures Granularity(size) == 1 ==> size / Granularity(size) == size
    ensures Granularity(size) > 1 ==> 1 <= size / Granularity(size)
    ensures 1 < Granularity(size) < GiB ==> size / Granularity(size) <= 1024
  {
    var g := Granularity(size);
    if size > GiB {
      DivisionBounds(size, g, size);
    } else if size > MiB {
      DivisionBounds(size, g, KiB);
    } else if size > KiB {
      DivisionBounds(size, g, KiB);
    }
  }

  /** pad: the string followed by spaces up to 16 characters; longer strings
      are returned unchanged. */
  method Pad(str: string) returns (r: string)
    ensures |r| == if |str| < 16 then 16 else |str|
    ensures r[..|str|] == str
    ensures forall i :: |str| <= i < |r| ==> r[i] == ' '
  {
    r := str;
    var i := |str|;
    while i < 16
      invariant |str| <= i && |r| == i
      invariant i <= if |str| < 16 then 16 else |str|
      invariant r[..|str|] == str
      invariant forall k :: |str| <= k < |r| ==> r[k] == ' '
    {
      r := r + " ";
      i := i + 1;
    }
  }
}
