/**
 * Pad-length arithmetic and the construction of neighbour arrays
 * (test/go/node_hasher.go, "Padding helpers").
 *
 * A neighbour array is laid out as `[deg, u0, u1, ..., u_{padLen-2}]`:
 * slot 0 holds the degree, the following slots hold the neighbour ids and
 * every unused slot is zero. Go's `uint64` entries are modelled as `nat`.
 */
module Padding {

  /** Largest value of Go's `int` on a 64-bit platform. */
  const MaxInt64: nat := 0x7FFF_FFFF_FFFF_FFFF

  /**
   * Largest `maxDegree` for which neither the `uint64` sum `maxDegree + 14`
   * nor the `int(...)` conversion of `1 + 15 * groups` wraps around.
   */
  const MaxSafeDegree: nat := MaxInt64 - 7

  /** Number of neighbour slots a Poseidon block holds next to the degree or accumulator. */
  const ChunkLen: nat := 15

  /**
   * The lengths the chunked hasher accepts: one full first block of 16
   * entries, then whole chunks of 15.
   */
  predicate ValidPadLen(n: nat)
  {
    n >= 16 && (n - 1) % 15 == 0
  }

  /**
   * padLen = 1 + 15 * ceil(maxDegree / 15), except that maxDegree == 0 still
   * gets one full first block of 16 entries. The number of 15-slot chunks,
   * (padLen - 1) / 15, is the least positive k with 15 * k >= maxDegree.
   */
  function PadLenFromMaxDegree(maxDegree: nat): (padLen: nat)
    requires maxDegree <= MaxSafeDegree
    ensures ValidPadLen(padLen)
    ensures maxDegree == 0 ==> padLen == 16
    ensures padLen - 1 >= maxDegree
    ensures maxDegree > 0 ==> padLen - 1 - ChunkLen < maxDegree
    ensures padLen <= MaxInt64
  {
    if maxDegree == 0 then
      1 + 15
    else
      var groups := (maxDegree + 14) / 15;
      assert 15 * groups <= maxDegree + 14 < 15 * groups + 15;
      1 + 15 * groups
  }

  /**
   * No valid length holding a degree and maxDegree neighbours is shorter
   * than PadLenFromMaxDegree(maxDegree): one block fewer never suffices.
   */
  lemma PadLenMinimal(maxDegree: nat, n: nat)
    requires maxDegree <= MaxSafeDegree
    requires ValidPadLen(n) && n - 1 >= maxDegree
    ensures PadLenFromMaxDegree(maxDegree) <= n
  {
    var p := PadLenFromMaxDegree(maxDegree);
    if maxDegree > 0 {
      // Both lengths are 1 modulo 15; p's chunk count g is the least with
      // 15 * g >= maxDegree, so it cannot exceed n's chunk count k.
      var k, g := (n - 1) / 15, (p - 1) / 15;
      assert n - 1 == 15 * k && p - 1 == 15 * g;
      assert 15 * (g - 1) < maxDegree <= 15 * k;
      assert g <= k;
    }
  }

  /** A larger degree bound never yields a shorter array. */
  lemma PadLenMonotone(a: nat, b: nat)
    requires a <= b <= MaxSafeDegree
    ensures PadLenFromMaxDegree(a) <= PadLenFromMaxDegree(b)
  {
    PadLenMinimal(a, PadLenFromMaxDegree(b));
  }

  /** n zero entries. */
  function Zeros(n: nat): (z: seq<nat>)
    ensures |z| == n
    ensures forall i :: 0 <= i < n ==> z[i] == 0
  {
    seq(n, _ => 0)
  }

  /** The all-zero neighbour array of the padded length for maxDegree. */
  function ZeroArray(maxDegree: nat): (z: seq<nat>)
    requires maxDegree <= MaxSafeDegree
    ensures |z| == PadLenFromMaxDegree(maxDegree)
    ensures ValidPadLen(|z|)
    ensures forall i :: 0 <= i < |z| ==> z[i] == 0
  {
    Zeros(PadLenFromMaxDegree(maxDegree))
  }

  /** The un-padded neighbour data `[len(nbrs), u0, ..., u_{k-1}]`. */
  function BuildNbrDataCompact(nbrs: seq<nat>): (out: seq<nat>)
    ensures |out| == 1 + |nbrs|
    ensures out[0] == |nbrs|
    ensures out[1..] == nbrs
  {
    [|nbrs|] + nbrs
  }

  /**
   * Extends a compact array with zeros to the padded length for maxDegree.
   * The Go code panics when the compact array is already longer.
   */
  function PadNbrData(compact: seq<nat>, maxDegree: nat): (out: seq<nat>)
    requires maxDegree <= MaxSafeDegree
    requires |compact| <= PadLenFromMaxDegree(maxDegree)
    ensures |out| == PadLenFromMaxDegree(maxDegree)
    ensures ValidPadLen(|out|)
    ensures out[..|compact|] == compact
    ensures forall i :: |compact| <= i < |out| ==> out[i] == 0
  {
    compact + Zeros(PadLenFromMaxDegree(maxDegree) - |compact|)
  }

  /**
   * Padding agrees with the all-zero array everywhere past the compact
   * data; for an empty neighbour list the two arrays coincide.
   */
  lemma PadNbrDataOverZeroArray(compact: seq<nat>, maxDegree: nat)
    requires maxDegree <= MaxSafeDegree
    requires |compact| <= PadLenFromMaxDegree(maxDegree)
    ensures PadNbrData(compact, maxDegree)[|compact|..] == ZeroArray(maxDegree)[|compact|..]
    ensures PadNbrData(BuildNbrDataCompact([]), maxDegree) == ZeroArray(maxDegree)
  {
    var out := PadNbrData(compact, maxDegree);
    var z := ZeroArray(maxDegree);
    assert forall i :: 0 <= i < |out| - |compact| ==>
      out[|compact|..][i] == 0 == z[|compact|..][i];
    var e := PadNbrData(BuildNbrDataCompact([]), maxDegree);
    assert forall i :: 0 <= i < |e| ==> e[i] == 0;
  }
}
