# NbrHash: chunked Poseidon commitment of a neighbour array

This project models the off-chain reference for the circuit's `NbrHash` in
`test/go/node_hasher.go`. That function commits a vertex's degree and
neighbour list to one field element. The model has three parts.

- **Pad-length arithmetic** (module `Padding`, `padding.dfy`).
  `PadLenFromMaxDegree` gives `1 + 15 * ceil(maxDegree / 15)`. A
  `maxDegree` of 0 still gets 16 slots.
- **Array construction** (`Padding` and `NbrHasher`).
  - `ZeroArray`, `BuildNbrDataCompact` and `PadNbrData` build the array
    `[deg, u0, ..., u_{k-1}, 0, ..., 0]`.
  - `ComputeNbrHash` overwrites slot 0 with the degree it is given, pads
    the array and hashes it.
- **The chunked accumulator** (`NbrHashSpec` in `nbr_hash_spec.dfy`,
  `NbrHasher.NbrArrayHasher` in `nbr_hasher.dfy`).
  - Round 0 hashes `nbrData[0..16)`.
  - Round `r >= 1` hashes `[acc] ++ nbrData[1+15r .. 16+15r)`.
  - There are `(padLen - 1) / 15` rounds.
  - The method reuses one 16-entry array `block`, as the Go code does. It is
    proved equal to:
    - the pure round-by-round definition `NbrHash`;
    - the left fold over 15-entry chunks that the doc comment describes
      (`FoldHash`).

Poseidon is a parameter `poseidon: Block -> nat`. `Block` is a sequence of
exactly 16 `nat`s. The hash is otherwise left uninterpreted, so every result
holds for any 16-input hash. The ghost out-parameter `calls` of
`NbrArrayHasher` records the inputs of each Poseidon call in order. Its
contract states which slots reach which call.

The array counts deg as slot 0. So `padLen = 1 + 15 * ceil(maxDegree / 15)`,
and 16 when `maxDegree` is 0 (test/go/node_hasher.go:14-24, 63-66).

The Go code has no checks beyond its panics, and the model adds none:
- The hasher checks only the array's length. It does not check ascending
  order, `deg <= maxDegree`, or that `deg` counts the non-zero entries.
- The lemma `TrailingZeroNeighbourInvisible` shows one consequence: a
  trailing zero neighbour does not change the hash.

## Model

| member | source | states |
|---|---|---|
| `Padding.PadLenFromMaxDegree` | test/go/node_hasher.go:14-24 | The result is a valid hasher length (>= 16 and 1 mod 15). It is 16 for maxDegree 0. It leaves at least maxDegree neighbour slots. For maxDegree > 0, one chunk fewer would not be enough. It fits in a 64-bit `int`. |
| `Padding.PadLenMinimal` | test/go/node_hasher.go:14-24 | Every valid length with room for maxDegree neighbours is at least PadLenFromMaxDegree(maxDegree). |
| `Padding.PadLenMonotone` | test/go/node_hasher.go:16-24 | A larger degree bound never gives a shorter array. |
| `Padding.Zeros` | test/go/node_hasher.go:52-53 | n entries, all zero: the part of a fresh slice that `copy` leaves untouched. |
| `Padding.ZeroArray` | test/go/node_hasher.go:26-33 | Length PadLenFromMaxDegree(maxDegree), every entry 0, and a valid hasher length. |
| `Padding.BuildNbrDataCompact` | test/go/node_hasher.go:35-41 | Length 1 + \|nbrs\|; slot 0 holds \|nbrs\|; the remaining slots are exactly nbrs. |
| `Padding.PadNbrData` | test/go/node_hasher.go:43-55 | Requires \|compact\| <= padLen (the panic). The result has exactly the padded length, starts with compact and is zero after it. |
| `Padding.PadNbrDataOverZeroArray` | test/go/node_hasher.go:26-55 | Past the compact data, a padded array agrees with ZeroArray. The degree-0 compact array pads to exactly ZeroArray. |
| `NbrHashSpec.NumRounds` | test/go/node_hasher.go:85-95 | For a valid length there is at least one round, and padLen == 1 + 15 * numR. |
| `NbrHashSpec.RoundInput` | test/go/node_hasher.go:101-135 | The 16 inputs of round r. Input j >= 1 is slot 15r + j of the array: round 0 reads nbrData[0..16), round r >= 1 reads nbrData[1+15r .. 16+15r) after the accumulator. Input 0 of round 0 is deg. |
| `NbrHashSpec.Trace` | test/go/node_hasher.go:101-140 | The inputs of the first n calls, in order: call r receives RoundInput(r). |
| `NbrHashSpec.NbrHash` | test/go/node_hasher.go:102-142 | The accumulator after the last round. When padLen == 16 the loop never runs, and the hash is the single call poseidon(nbrData). |
| `NbrHashSpec.EverySlotReachesOneCall` | test/go/node_hasher.go:110-139 | Slot k is input SlotPosition(k) of round SlotRound(k). That round exists, and the position is never the accumulator slot of a later round. Distinct slots go to distinct (round, position) pairs. |
| `NbrHashSpec.Chunks` | test/go/node_hasher.go:71-73 | Splitting the tail gives \|s\|/15 chunks, each of 15 entries. |
| `NbrHashSpec.ChunkAt` | test/go/node_hasher.go:71-73 | Chunk i is the slice s[15i .. 15i+15). |
| `NbrHashSpec.ChunksCover` | test/go/node_hasher.go:110-117 | Concatenating the chunks gives back the tail exactly: nothing lost, nothing reordered. |
| `NbrHashSpec.FoldChunksLast` | test/go/node_hasher.go:71-73 | The fold acc := Poseidon([acc] ++ chunk) runs front to back: its last call hashes the fold of all earlier chunks followed by the last chunk. |
| `NbrHashSpec.ChunkIsRoundInput` | test/go/node_hasher.go:120-135 | Round i+1 hashes the accumulator of round i followed by chunk i of nbrData[16..]. |
| `NbrHashSpec.FoldFromRound` | test/go/node_hasher.go:61-75 | From any round r, folding the remaining chunks into Acc(r) gives NbrHash. |
| `NbrHashSpec.FoldHash` | test/go/node_hasher.go:61-75 | The doc comment's algorithm is Poseidon(B0), then acc := Poseidon([acc] ++ chunk) for each further chunk. Its result equals the round-by-round NbrHash. |
| `NbrHashSpec.AccOfExtension` | test/go/node_hasher.go:118-140 | Appending a 15-entry chunk leaves every earlier round's accumulator unchanged. |
| `NbrHashSpec.NbrHashExtend` | test/go/node_hasher.go:118-140 | One extra chunk adds exactly one round, whose result is poseidon([previous hash] ++ chunk). |
| `NbrHasher.NbrArrayHasher` | test/go/node_hasher.go:86-143 | Requires padLen >= 16 and (padLen-1) % 15 == 0 (the panics). The result equals NbrHash and the doc comment's fold. It makes exactly numR calls, call r receiving RoundInput(r). For padLen 16 it is poseidon(nbrData). The loop keeps offset == 1 + 15r, and the defensive zero fill is proved unreachable. |
| `NbrHasher.NbrLayout` | test/go/node_hasher.go:80-84 | The padded layout: length padLen, deg in slot 0, the neighbours in slots 1..k, zero in every other slot. |
| `NbrHasher.CompactPaddedIsLayout` | test/go/node_hasher.go:150-156 | Building the compact array, overwriting slot 0 with deg and padding gives exactly NbrLayout(deg, nbrs, padLen). |
| `NbrHasher.TrailingZeroNeighbourInvisible` | test/go/node_hasher.go:150-156 | Appending a zero neighbour leaves the padded layout, and so the hash, unchanged. |
| `NbrHasher.ComputeNbrHash` | test/go/node_hasher.go:150-156 | Requires \|neighbors\| + 1 <= PadLenFromMaxDegree(maxDegree) (the padNbrData panic). Returns NbrHash of the layout whose slot 0 is the argument deg (not \|neighbors\|), followed by the neighbours and zeros. |

## Left out

- Poseidon over the BN254 scalar field (test/go/node_hasher.go:7, 105, 135) is external cryptography. It is an arbitrary total function of 16 inputs. Field reduction is not modelled.
- The error return of `poseidon.Hash` and the panic it triggers are not modelled, because the hash is treated as total.
- `big.Int` and `uint64` values are modelled as `nat`. `bigFromUint64` (test/go/node_hasher.go:145-148) is the identity on `nat`, so it has no counterpart.
- Padding.PadLenFromMaxDegree: does not model the `uint64` wrap-around of `maxDegree + 14`, nor the `int(...)` conversion. It requires `maxDegree <= 2^63 - 8`, the largest value for which the result fits in a 64-bit `int`.
- NbrHasher.NbrArrayHasher: takes `nbrData` as an immutable sequence. The Go code never writes to it. Only the reused `block` is an array.
- NbrHasher.ComputeNbrHash: the in-place `compact[0] = deg` is a sequence update. `buildNbrDataCompact` returns a fresh slice, so no alias can observe the write.
- `test/go/node_hasher_test.go` is left out. It tests another package's `ComputeNodeHash`, `CalculatePadLen`, `PadNeighbors` and `ValidateNeighbors`, which are not in the modelled file. Its layout (`14 + 15k` slots) is not compatible with this one. It also reads JSON test vectors from disk.
- `test/go/cmd/gen_vectors/main.go` is left out. It is a driver that prints JSON vectors.
- The neighbour-array validator, the sparse Merkle tree and GraphTree edge-insertion protocol, the SHA-256 storage-hash packing and the circom circuits are not part of this model.
