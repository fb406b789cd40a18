/** The block sizes the engine writes against the limits its readers apply. */
module BlockLimits {
  import opened Bytes
  import opened Varints
  import opened InternalKeys
  import opened Mvcc
  import opened RowLimits
  import opened BlockBuilding
  import opened TableBuilding
  import opened TableWriting
  import opened TableVisible

  function Saturated(n: nat): u64 {
    if n > U64_MAX then U64_MAX else n
  }

  function Smaller(a: nat, b: nat): nat {
    if a < b then a else b
  }

  /** The limit of the engine's point reads and scans. */
  function ReaderBlockLimit(o: Sizes): u64 {
    Saturated(Larger(2 * o.blockBytes, 2 * o.maxKey + o.maxValue + 128))
  }

  const DEFAULT_LIMIT := 64 * 1024 * 1024

  /** The limit of a compaction's readers. */
  function CompactionBlockLimit(o: Sizes): u64 {
    Saturated(4 * Larger(o.blockBytes, DEFAULT_LIMIT))
  }

  // ----- Rows the engine writes -----

  ghost predicate EnginePair(o: Sizes, p: Pair) {
    exists e :: EngineEntry(o, e) && p == PairOf(RowOf(e))
  }

  lemma EnginePairSizes(o: Sizes, p: Pair) returns (k: nat, v: nat)
    requires EnginePair(o, p)
    ensures RowFits(o, k, v) && 11 <= |p.0| <= 2 * k + 11 && 6 <= |p.1| <= v + 14
  {
    var e :| EngineEntry(o, e) && p == PairOf(RowOf(e));
    k, v := |e.user|, ValueSize(e);
  }

  /** A block of one row: its three lengths, its bytes, one restart and the count. */
  function SingleRow(k: nat, v: nat): nat {
    1 + |Put(2 * k + 11)| + |Put(v + 14)| + (2 * k + 11) + (v + 14) + 8
  }

  function LongestKey(o: Sizes): nat {
    Smaller(Smaller(o.maxKey, U32_END - 1), o.maxBatch)
  }

  function LongestValue(o: Sizes): nat {
    Smaller(Smaller(o.maxValue, U32_END - 1), o.maxBatch - LongestKey(o))
  }

  /** The longest block of a single row: key bytes count twice, so the longest key goes first. */
  function LargestSingle(o: Sizes): nat {
    SingleRow(LongestKey(o), LongestValue(o))
  }

  lemma {:induction false} PutGrows(n: nat, d: nat)
    ensures |Put(n + d)| <= |Put(n)| + d
  {
    if d > 0 && n + d >= 128 {
      if n < 128 {
        PutGrows(0, (n + d) / 128);
      } else {
        PutGrows(n / 128, (n + d) / 128 - n / 128);
      }
    }
  }

  lemma LargestIsLargest(o: Sizes, k: nat, v: nat)
    requires RowFits(o, k, v)
    ensures SingleRow(k, v) <= LargestSingle(o)
  {
    var bestK, bestV := LongestKey(o), LongestValue(o);
    PutMonotone(2 * k + 11, 2 * bestK + 11);
    if v <= bestV {
      PutMonotone(v + 14, bestV + 14);
    } else {
      PutGrows(bestV + 14, v - bestV);
    }
  }

  lemma {:induction false} PutMonotone(m: nat, n: nat)
    requires m <= n
    ensures |Put(m)| <= |Put(n)|
  {
    if n >= 128 && m >= 128 {
      PutMonotone(m / 128, n / 128);
    }
  }

  // ----- Blocks the builder can finish -----

  /** A builder state whose pairs the engine packs into one block. */
  ghost predicate Finishable(o: Sizes, b: Building) {
    && b in SOUND && b.items != []
    && Fits(PairsOf(b.items), o.blockBytes)
    && forall p | p in PairsOf(b.items) :: EnginePair(o, p)
  }

  function Encoded(b: Building): bytes {
    WithFooter(b.entries, b.restarts)
  }

  /** The first entry of a block shares nothing. */
  lemma FirstShared(b: Building)
    requires b in SOUND && b.items != []
    ensures b.items[0].shared == 0
  {
    SoundParts(b);
    assert b.runs[0] == 0;
  }

  /** How long a block of one row is. */
  lemma OneRowSize(b: Building)
    requires b in SOUND && |b.items| == 1
    ensures var e := b.items[0];
            |Encoded(b)| == 1 + |Put(|e.key|)| + |Put(|e.value|)| + |e.key| + |e.value| + 8
  {
    SoundSize(b);
    FirstShared(b);
    assert b.items[..0] == [] && Put(0) == [0];
    OneRestart(b);
  }

  lemma RowSize(o: Sizes, p: Pair)
    requires EnginePair(o, p)
    ensures 1 + |Put(|p.0|)| + |Put(|p.1|)| + |p.0| + |p.1| + 8 <= LargestSingle(o)
  {
    var k, v := EnginePairSizes(o, p);
    PutMonotone(|p.0|, 2 * k + 11);
    PutMonotone(|p.1|, v + 14);
    LargestIsLargest(o, k, v);
  }

  /** A block of one row is no longer than the largest. */
  lemma SingleSize(o: Sizes, b: Building)
    requires Finishable(o, b) && |b.items| == 1
    ensures |Encoded(b)| <= LargestSingle(o)
  {
    OneRowSize(b);
    var p := PairsOf(b.items)[0];
    assert p in PairsOf(b.items) && p == (b.items[0].key, b.items[0].value);
    RowSize(o, p);
  }

  lemma OneRestart(b: Building)
    requires b in SOUND && |b.items| == 1
    ensures |b.restarts| == 1
  {
    SoundParts(b);
  }

  /** A block of several rows is at most twice the block size. */
  lemma SeveralSize(o: Sizes, b: Building)
    requires Finishable(o, b) && |b.items| > 1
    ensures |Encoded(b)| <= 2 * o.blockBytes
  {
    SoundSize(b);
    var pairs := PairsOf(b.items);
    forall p | p in pairs ensures 17 <= PairWeight(p) {
      var k, v := EnginePairSizes(o, p);
    }
    BoundAtMostDouble(pairs);
  }

  /** The engine's readers accept every block the engine writes. */
  lemma EngineReadsItsBlocks(o: Sizes, b: Building)
    requires Finishable(o, b) && |Encoded(b)| <= U64_MAX
    ensures |Encoded(b)| <= ReaderBlockLimit(o)
  {
    if |b.items| == 1 {
      SingleSize(o, b);
      LargestWithinLimit(o);
    } else {
      SeveralSize(o, b);
    }
  }

  lemma LargestWithinLimit(o: Sizes)
    ensures LargestSingle(o) <= 2 * o.maxKey + o.maxValue + 128
  {
    PutBounded(2 * LongestKey(o) + 11);
    PutBounded(LongestValue(o) + 14);
  }

  lemma PutBounded(n: nat)
    requires n < 0x10_0000_0000_0000_0000
    ensures |Put(n)| <= 10
  {
    assert Pow128(2) == 0x4000;
    assert Pow128(4) == 0x4000 * Pow128(2);
    assert Pow128(6) == 0x4000 * Pow128(4);
    assert Pow128(8) == 0x4000 * Pow128(6);
    assert Pow128(10) == 0x4000 * Pow128(8);
    PutWidth(n, 10);
  }

  lemma {:induction false} PutWidth(n: nat, w: nat)
    requires w > 0 && n < Pow128(w)
    ensures |Put(n)| <= w
  {
    if n >= 128 {
      PutWidth(n / 128, w - 1);
    }
  }

  // ----- Whole tables -----

  lemma ChunkWithinLimit(o: Sizes, chunk: seq<Pair>)
    requires chunk != [] && Fits(chunk, o.blockBytes) && forall p | p in chunk :: EnginePair(o, p)
    ensures BlockBound(chunk) <= Larger(2 * o.blockBytes, 2 * o.maxKey + o.maxValue + 128)
  {
    forall p | p in chunk ensures 17 <= PairWeight(p) <= 2 * o.maxKey + o.maxValue + 25 {
      var k, v := EnginePairSizes(o, p);
    }
    if |chunk| == 1 {
      assert chunk[0] in chunk && chunk[..0] == [];
      assert Bound(chunk[..0]) == 0 && Bound(chunk) == PairBound(chunk[0]);
    } else {
      BoundAtMostDouble(chunk);
    }
  }

  lemma ChunkOfRows(o: Sizes, rows: seq<Row>, chunks: seq<seq<Pair>>, i: nat)
    requires Pairs(rows) == Join(chunks) && i < |chunks|
    requires forall i | 0 <= i < |rows| :: EnginePair(o, PairOf(rows[i]))
    ensures forall p | p in chunks[i] :: EnginePair(o, p)
  {
    forall p | p in chunks[i] ensures EnginePair(o, p) {
      var j :| 0 <= j < |chunks[i]| && chunks[i][j] == p;
      ChunkAt(chunks, i, j);
      assert Pairs(rows)[At(chunks, i) + j] == p;
    }
  }

  /** The largest block of a table, and what is packed into it. */
  lemma LargestBlock(crc: Framing.Checksum, size: nat, t: Table) returns (i: nat)
    requires t in TABLES(crc, size)
    ensures i < |t.area.chunks| && t.area.chunks[i] != [] && Fits(t.area.chunks[i], size)
    ensures t.properties.maxBlock <= BlockBound(t.area.chunks[i])
  {
    var a := t.area;
    TableLookups.NonEmptyIndex(crc, size, t);
    TableLookups.TableParts(crc, size, t);
    i := LargestOf(crc, a);
    assert HoldsRows(crc, size, a, t.rows);
  }

  lemma LargestOf(crc: Framing.Checksum, a: Area) returns (i: nat)
    requires a in AREAS(crc) && a.metas != []
    ensures |a.chunks| == |a.metas| && i < |a.chunks| && a.chunks[i] != [] && a.maxBlock <= BlockBound(a.chunks[i])
  {
    i :| 0 <= i < |a.payloads| && |a.payloads[i]| == a.maxBlock;
    assert FlushedAt(crc, a, i);
  }

  /** Every data block of every table the engine writes is within the limit the engine opens it with. */
  lemma EngineReadsItsTables(crc: Framing.Checksum, o: Sizes, t: Table)
    requires t in TABLES(crc, o.blockBytes) && forall i | 0 <= i < |t.rows| :: EnginePair(o, PairOf(t.rows[i]))
    ensures t.properties.maxBlock <= ReaderBlockLimit(o)
  {
    var i := LargestBlock(crc, o.blockBytes, t);
    TableLookups.RowsHeld(crc, o.blockBytes, t);
    ChunkOfRows(o, t.rows, t.area.chunks, i);
    ChunkWithinLimit(o, t.area.chunks[i]);
  }

  // ----- The compaction limit -----

  lemma {:induction false} EscapeZeros(user: bytes)
    requires forall i | 0 <= i < |user| :: user[i] == 0
    ensures |Escape(user)| == 2 * |user|
  {
    if user != [] {
      EscapeZeros(user[1..]);
    }
  }

  /** The entry with the longest block the options allow. */
  function LongestEntry(o: Sizes): Entry {
    Entry(Zeros(LongestKey(o)), 1, Stored(Zeros(LongestValue(o)), Some(0)))
  }

  lemma LongestSizes(o: Sizes)
    ensures EngineEntry(o, LongestEntry(o))
    ensures var p := PairOf(RowOf(LongestEntry(o))); |p.0| == 2 * LongestKey(o) + 11 && |p.1| == LongestValue(o) + 14
  {
    EscapeZeros(Zeros(LongestKey(o)));
  }

  /** A block of that one entry is exactly as long as the largest. */
  lemma LongestBlock(o: Sizes, n: nat) returns (b: Building)
    requires n > 0
    ensures Finishable(o, b) && |Encoded(b)| == LargestSingle(o)
  {
    var p := PairOf(RowOf(LongestEntry(o)));
    LongestSizes(o);
    var empty := Building([], [0], n, 0, [], [0], []);
    EmptySound(n);
    ContinuedSound(empty, p.0, p.1);
    b := Continued(empty, Shared([], p.0), p.0, p.1);
    OneRowSize(b);
    assert PairsOf(b.items) == [p];
    assert EnginePair(o, p);
  }

  lemma LargestIsU64(o: Sizes)
    ensures LargestSingle(o) <= 0x4_0000_0000
  {
    PutBounded(2 * LongestKey(o) + 11);
    PutBounded(LongestValue(o) + 14);
  }

  /** Compactions can read every block the engine writes if and only if the largest single row fits their limit. */
  lemma CompactionReadsAllIff(o: Sizes)
    ensures (forall b | Finishable(o, b) && |Encoded(b)| <= U64_MAX :: |Encoded(b)| <= CompactionBlockLimit(o))
       <==> LargestSingle(o) <= 4 * Larger(o.blockBytes, DEFAULT_LIMIT)
  {
    if LargestSingle(o) <= 4 * Larger(o.blockBytes, DEFAULT_LIMIT) {
      forall b | Finishable(o, b) && |Encoded(b)| <= U64_MAX ensures |Encoded(b)| <= CompactionBlockLimit(o) {
        if |b.items| == 1 {
          SingleSize(o, b);
        } else {
          SeveralSize(o, b);
        }
      }
    } else {
      LargestIsU64(o);
      var b := LongestBlock(o, 1);
      assert |Encoded(b)| > CompactionBlockLimit(o);
    }
  }

  /** With values and batches of up to a gigabyte and 4 KiB blocks, the engine writes blocks that no compaction can
      read. */
  lemma CompactionRefuses()
    ensures var o := Sizes(4096, 1024, 0x4000_0000, 0x4000_0000);
            exists b :: Finishable(o, b) && CompactionBlockLimit(o) < |Encoded(b)| <= ReaderBlockLimit(o)
  {
    var o := Sizes(4096, 1024, 0x4000_0000, 0x4000_0000);
    LargestIsU64(o);
    var b := LongestBlock(o, 16);
    EngineReadsItsBlocks(o, b);
  }

  /** With the default limits every compaction can read every block. */
  lemma DefaultsRead()
    ensures var o := Sizes(4096, 0x10_0000, 0x400_0000, 0x400_0000);
            forall b | Finishable(o, b) && |Encoded(b)| <= U64_MAX :: |Encoded(b)| <= CompactionBlockLimit(o)
  {
    var o := Sizes(4096, 0x10_0000, 0x400_0000, 0x400_0000);
    LargestWithinLimit(o);
    CompactionReadsAllIff(o);
  }
}
