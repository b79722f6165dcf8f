/** The metadata layout of an Artifice instance stored with AONT-RS
    (src/artifice_utils.py): how many map, map-of-map and pointer blocks a hidden
    volume of a given size needs, and its total footprint on disk. All quantities are
    counted in blocks; the divisions are exact rational divisions followed by
    floor or ceiling. */
module ArtificeUtils {

  const BlockSize: nat := 4096
  const SmallChecksum: nat := 0
  const PointerSize: nat := 4
  const ArtBlockHash: nat := 16
  /** A pointer block holds block_size / pointer_size pointers, less one for the chain. */
  const PointersPerPointerBlock: nat := BlockSize / PointerSize - 1
  /** calc_total_size_aont stores its metadata with this many replicas. */
  const TotalSizeReplicas: nat := 8

  // ---------------------------------------------------------------------------
  // Floor and ceiling of a quotient

  /** `q` is the ceiling of a / b: the fewest b-sized units that hold `a`. */
  predicate IsCeiling(q: int, a: int, b: int) {
    (q - 1) * b < a <= q * b
  }

  /** `q` is the floor of a / b: the most whole b-sized units inside `a`. */
  predicate IsFloor(q: int, a: int, b: int) {
    q * b <= a < (q + 1) * b
  }

  lemma MulMono(x: int, y: int, c: nat)
    requires x <= y
    ensures x * c <= y * c
  {
  }

  lemma MulCancel(x: int, y: int, c: int)
    requires c > 0 && x * c >= y * c
    ensures x >= y
  {
  }

  /** `math.ceil(a / b)` on naturals. */
  function CeilDiv(a: nat, b: nat): (q: nat)
    requires b > 0
    ensures IsCeiling(q, a, b)
    ensures a > 0 ==> q >= 1
  {
    var q := (a + b - 1) / b;
    var m := (a + b - 1) % b;
    assert a + b - 1 == q * b + m && 0 <= m < b;
    assert (q - 1) * b == q * b - b;
    q
  }

  /** `math.floor(a / b)` on naturals. */
  function FloorDiv(a: nat, b: nat): (q: nat)
    requires b > 0
    ensures IsFloor(q, a, b)
  {
    var q := a / b;
    assert a == q * b + a % b;
    assert (q + 1) * b == q * b + b;
    q
  }

  /** A ceiling is determined by its quotient: any two ceilings of a / b agree. */
  lemma CeilingUnique(q: int, p: int, a: int, b: int)
    requires b > 0 && IsCeiling(q, a, b) && IsCeiling(p, a, b)
    ensures q == p
  {
    if q < p {
      MulMono(q, p - 1, b);
    } else if p < q {
      MulMono(p, q - 1, b);
    }
  }

  /** A larger numerator never needs fewer units. */
  lemma CeilDivMonotone(a1: nat, a2: nat, b: nat)
    requires b > 0 && a1 <= a2
    ensures CeilDiv(a1, b) <= CeilDiv(a2, b)
  {
    var q1, q2 := CeilDiv(a1, b), CeilDiv(a2, b);
    if q1 > q2 {
      MulMono(q2, q1 - 1, b);
    }
  }

  // ---------------------------------------------------------------------------
  // Map records

  /** Bytes per map record: one carrier-block tuple per parity share plus the block hash. */
  function RecordSize(parity: nat): nat {
    parity * (PointerSize + SmallChecksum) + ArtBlockHash
  }

  /** Map records that fit in one block. */
  function EntriesPerBlock(parity: nat): (e: nat)
    ensures IsFloor(e, BlockSize, RecordSize(parity))
  {
    FloorDiv(BlockSize, RecordSize(parity))
  }

  /** A block holds at least one record exactly when the parity count is at most 1020;
      beyond that the map-block count divides by zero. */
  lemma EntriesPositive(parity: nat)
    ensures EntriesPerBlock(parity) > 0 <==> parity <= 1020
  {
    var e, rs := EntriesPerBlock(parity), RecordSize(parity);
    if parity <= 1020 {
      assert rs <= BlockSize;
    } else {
      assert rs > BlockSize;
      if e > 0 {
        MulMono(1, e, rs);
      }
    }
  }

  // ---------------------------------------------------------------------------
  // Metadata size

  /** The tuple calc_metadata_size_aont returns. */
  datatype MetadataStats = MetadataStats(
    numMapBlocks: nat,
    numMapMapBlocks: nat,
    numPointerBlocks: nat,
    replicas: nat,
    metadataSize: nat,
    effectiveDataSize: nat,
    sharesPerBlock: nat)

  /** calc_metadata_size_aont: the map blocks index every data block in records of
      EntriesPerBlock(parity) entries per block, with each entry covering `data`
      blocks; the map-of-map blocks index the map blocks the same way; the pointer
      blocks point at the map-of-map blocks; pointer blocks plus one root are
      replicated. The data itself grows by the AONT-RS amplification (parity + data) / data,
      and a free block holds 4096 / data shares. */
  function CalcMetadataSizeAont(blocks: nat, parity: nat, data: nat, replicas: nat): (r: MetadataStats)
    requires blocks > 0 && data > 0 && parity <= 1020
    ensures IsCeiling(r.numMapBlocks, blocks, data * EntriesPerBlock(parity))
    ensures IsCeiling(r.numMapMapBlocks, r.numMapBlocks, data * EntriesPerBlock(parity))
    ensures IsCeiling(r.numPointerBlocks, r.numMapMapBlocks, PointersPerPointerBlock)
    ensures r.numMapBlocks >= 1 && r.numMapMapBlocks >= 1 && r.numPointerBlocks >= 1
    ensures r.replicas == replicas
    ensures r.metadataSize == (r.numPointerBlocks + 1) * replicas + r.numMapMapBlocks + r.numMapBlocks
    ensures r.metadataSize >= 2 * replicas + 2
    ensures IsCeiling(r.effectiveDataSize, blocks * (parity + data), data)
    ensures r.effectiveDataSize >= blocks
    ensures IsFloor(r.sharesPerBlock, BlockSize, data)
  {
    EntriesPositive(parity);
    var perMapBlock := data * EntriesPerBlock(parity);
    assert perMapBlock > 0;
    var numMapBlocks := CeilDiv(blocks, perMapBlock);
    var numMapMapBlocks := CeilDiv(numMapBlocks, perMapBlock);
    var numPointerBlocks := CeilDiv(numMapMapBlocks, PointersPerPointerBlock);
    MulMono(2, numPointerBlocks + 1, replicas);
    var metadataSize := (numPointerBlocks + 1) * replicas + numMapMapBlocks + numMapBlocks;
    var effective := CeilDiv(blocks * (parity + data), data);
    AmplifiedAtLeast(blocks, parity, data);
    MetadataStats(numMapBlocks, numMapMapBlocks, numPointerBlocks, replicas, metadataSize, effective,
                  FloorDiv(BlockSize, data))
  }

  /** Amplifying by (parity + data) / data never shrinks the data. */
  lemma AmplifiedAtLeast(blocks: nat, parity: nat, data: nat)
    requires data > 0
    ensures CeilDiv(blocks * (parity + data), data) >= blocks
  {
    var e := CeilDiv(blocks * (parity + data), data);
    assert blocks * (parity + data) == blocks * parity + blocks * data;
    assert e * data >= blocks * data;
    MulCancel(e, blocks, data);
  }

  /** A larger volume never needs less metadata. */
  lemma MetadataMonotone(blocks1: nat, blocks2: nat, parity: nat, data: nat, replicas: nat)
    requires 0 < blocks1 <= blocks2 && data > 0 && parity <= 1020
    ensures CalcMetadataSizeAont(blocks1, parity, data, replicas).metadataSize
         <= CalcMetadataSizeAont(blocks2, parity, data, replicas).metadataSize
  {
    EntriesPositive(parity);
    var perMapBlock := data * EntriesPerBlock(parity);
    var r1, r2 := CalcMetadataSizeAont(blocks1, parity, data, replicas), CalcMetadataSizeAont(blocks2, parity, data, replicas);
    CeilDivMonotone(blocks1, blocks2, perMapBlock);
    CeilingUnique(r1.numMapBlocks, CeilDiv(blocks1, perMapBlock), blocks1, perMapBlock);
    CeilingUnique(r2.numMapBlocks, CeilDiv(blocks2, perMapBlock), blocks2, perMapBlock);
    CeilDivMonotone(r1.numMapBlocks, r2.numMapBlocks, perMapBlock);
    CeilingUnique(r1.numMapMapBlocks, CeilDiv(r1.numMapBlocks, perMapBlock), r1.numMapBlocks, perMapBlock);
    CeilingUnique(r2.numMapMapBlocks, CeilDiv(r2.numMapBlocks, perMapBlock), r2.numMapBlocks, perMapBlock);
    CeilDivMonotone(r1.numMapMapBlocks, r2.numMapMapBlocks, PointersPerPointerBlock);
    CeilingUnique(r1.numPointerBlocks, CeilDiv(r1.numMapMapBlocks, PointersPerPointerBlock), r1.numMapMapBlocks, PointersPerPointerBlock);
    CeilingUnique(r2.numPointerBlocks, CeilDiv(r2.numMapMapBlocks, PointersPerPointerBlock), r2.numMapMapBlocks, PointersPerPointerBlock);
    MulMono(r1.numPointerBlocks + 1, r2.numPointerBlocks + 1, replicas);
  }

  /** calc_total_size_aont: the metadata (with 8 replicas) plus the amplified data. */
  function CalcTotalSizeAont(size: nat, parity: nat, data: nat): (t: nat)
    requires size > 0 && data > 0 && parity <= 1020
    ensures t >= size + 2 * TotalSizeReplicas + 2
    ensures t >= CalcMetadataSizeAont(size, parity, data, TotalSizeReplicas).metadataSize + size
  {
    var stats := CalcMetadataSizeAont(size, parity, data, TotalSizeReplicas);
    stats.metadataSize + stats.effectiveDataSize
  }

  /** A larger volume never has a smaller total footprint. */
  lemma TotalSizeMonotone(size1: nat, size2: nat, parity: nat, data: nat)
    requires 0 < size1 <= size2 && data > 0 && parity <= 1020
    ensures CalcTotalSizeAont(size1, parity, data) <= CalcTotalSizeAont(size2, parity, data)
  {
    MetadataMonotone(size1, size2, parity, data, TotalSizeReplicas);
    var s1 := CalcMetadataSizeAont(size1, parity, data, TotalSizeReplicas);
    var s2 := CalcMetadataSizeAont(size2, parity, data, TotalSizeReplicas);
    MulMono(size1, size2, parity + data);
    CeilDivMonotone(size1 * (parity + data), size2 * (parity + data), data);
    CeilingUnique(s1.effectiveDataSize, CeilDiv(size1 * (parity + data), data), size1 * (parity + data), data);
    CeilingUnique(s2.effectiveDataSize, CeilDiv(size2 * (parity + data), data), size2 * (parity + data), data);
  }
}
