/**
 * The imperative hasher of test/go/node_hasher.go: NbrArrayHasher reuses
 * one 16-entry block, refilled before every Poseidon call, and threads the
 * accumulator and the read offset through its rounds; ComputeNbrHash builds
 * the padded array and hashes it.
 */
module NbrHasher {
  import opened Padding
  import opened NbrHashSpec

  /**
   * Hashes a padded neighbour array `[deg, u0, ..., u_{padLen-2}]`. The
   * Go code panics unless padLen >= 16 and (padLen - 1) % 15 == 0; it checks
   * nothing else (neither ascending order nor the value of deg). `calls`
   * records the inputs of every Poseidon call, in order.
   */
  method NbrArrayHasher(poseidon: Poseidon16, nbrData: seq<nat>) returns (acc: nat, ghost calls: seq<Block>)
    requires ValidPadLen(|nbrData|)
    ensures acc == NbrHash(poseidon, nbrData)
    ensures acc == FoldHash(poseidon, nbrData)
    ensures |nbrData| == 16 ==> acc == poseidon(nbrData)
    ensures |calls| == NumRounds(nbrData)
    ensures calls == Trace(poseidon, nbrData, NumRounds(nbrData))
  {
    var padLen := |nbrData|;
    var numR := (padLen - 1) / 15;
    var block := new nat[16];

    // Round 0: B0 = [deg, u0..u14].
    for i := 0 to 16
      invariant block[..i] == nbrData[..i]
    {
      block[i] := nbrData[i];
    }
    assert block[..] == RoundInput(poseidon, nbrData, 0);
    acc := poseidon(block[..]);
    calls := [block[..]];

    // Rounds 1 .. numR-1: Bb = [acc, next 15 entries].
    var offset := 16;
    for r := 1 to numR
      invariant offset == 1 + 15 * r
      invariant acc == Acc(poseidon, nbrData, r - 1)
      invariant calls == Trace(poseidon, nbrData, r)
    {
      RoundInBounds(nbrData, r);
      block[0] := acc;
      for j := 1 to 16
        invariant block[0] == acc
        invariant forall k :: 1 <= k < j ==> block[k] == nbrData[offset + k - 1]
      {
        var idx := offset + (j - 1);
        // The Go code's defensive zero fill for idx >= padLen never fires.
        assert idx < padLen;
        block[j] := if idx < padLen then nbrData[idx] else 0;
      }
      assert block[..] == RoundInput(poseidon, nbrData, r);
      acc := poseidon(block[..]);
      calls := calls + [block[..]];
      offset := offset + 15;
    }
  }

  /**
   * The padded layout `[deg, u0, ..., u_{k-1}, 0, ..., 0]` of length padLen:
   * deg in slot 0, the neighbours in slots 1..k, zero everywhere else.
   */
  function NbrLayout(deg: nat, nbrs: seq<nat>, padLen: nat): (d: seq<nat>)
    requires 1 + |nbrs| <= padLen
    ensures |d| == padLen && d[0] == deg && d[1..1 + |nbrs|] == nbrs
    ensures forall i :: 1 + |nbrs| <= i < padLen ==> d[i] == 0
  {
    [deg] + nbrs + Zeros(padLen - 1 - |nbrs|)
  }

  /**
   * Building the compact array, overwriting slot 0 with an arbitrary degree
   * and padding yields exactly the layout.
   */
  lemma CompactPaddedIsLayout(deg: nat, nbrs: seq<nat>, maxDegree: nat)
    requires maxDegree <= MaxSafeDegree
    requires |nbrs| + 1 <= PadLenFromMaxDegree(maxDegree)
    ensures PadNbrData(BuildNbrDataCompact(nbrs)[0 := deg], maxDegree)
         == NbrLayout(deg, nbrs, PadLenFromMaxDegree(maxDegree))
  {
    var compact := BuildNbrDataCompact(nbrs)[0 := deg];
    var padded := PadNbrData(compact, maxDegree);
    var layout := NbrLayout(deg, nbrs, PadLenFromMaxDegree(maxDegree));
    forall i | 0 <= i < |padded|
      ensures padded[i] == layout[i]
    {
      if 1 <= i < 1 + |nbrs| {
        assert padded[i] == padded[..|compact|][i] == compact[i] == nbrs[i - 1];
        assert layout[i] == layout[1..1 + |nbrs|][i - 1];
      } else if i == 0 {
        assert padded[0] == padded[..|compact|][0];
      }
    }
  }

  /**
   * A trailing zero neighbour is invisible to the hash: the code never
   * compares deg with the number of non-zero entries.
   */
  lemma TrailingZeroNeighbourInvisible(deg: nat, nbrs: seq<nat>, padLen: nat)
    requires 2 + |nbrs| <= padLen
    ensures NbrLayout(deg, nbrs + [0], padLen) == NbrLayout(deg, nbrs, padLen)
  {
    var a, b := NbrLayout(deg, nbrs + [0], padLen), NbrLayout(deg, nbrs, padLen);
    forall i | 0 <= i < padLen
      ensures a[i] == b[i]
    {
      if 1 <= i < 1 + |nbrs| {
        assert a[i] == a[1..2 + |nbrs|][i - 1] == (nbrs + [0])[i - 1];
        assert b[i] == b[1..1 + |nbrs|][i - 1];
      } else if i == 1 + |nbrs| {
        assert a[i] == a[1..2 + |nbrs|][i - 1] == 0;
      }
    }
  }

  /**
   * Hashes deg and the neighbour list padded for maxDegree. Slot 0 carries
   * the argument deg, not the list's length; the Go code panics when
   * the list does not fit.
   */
  method ComputeNbrHash(poseidon: Poseidon16, deg: nat, neighbors: seq<nat>, maxDegree: nat) returns (hash: nat)
    requires maxDegree <= MaxSafeDegree
    requires |neighbors| + 1 <= PadLenFromMaxDegree(maxDegree)
    ensures ValidPadLen(PadLenFromMaxDegree(maxDegree))
    ensures hash == NbrHash(poseidon, NbrLayout(deg, neighbors, PadLenFromMaxDegree(maxDegree)))
  {
    var compact := BuildNbrDataCompact(neighbors);
    compact := compact[0 := deg];
    var padded := PadNbrData(compact, maxDegree);
    CompactPaddedIsLayout(deg, neighbors, maxDegree);
    ghost var calls;
    hash, calls := NbrArrayHasher(poseidon, padded);
  }
}
