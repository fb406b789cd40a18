/** Reading a finished table: every file the builder writes opens, iterates back to its rows, and answers
    lookups as the block index routes them. */
module TableLookups {
  import opened Bytes
  import opened Framing
  import opened InternalKeys
  import opened TableFormat
  import opened TableReading
  import opened BlockBuilding
  import opened TableBuilding
  import opened TableWriting

  // ----- Opening -----

  function ReaderFor(crc: Checksum, t: Table, limits: Limits): TableReader
    requires TableSize(crc, t) <= U64_MAX
  {
    TableReader(TableFile(crc, t), |DataOf(crc, t.area)|, IndexFor(t.area.metas), t.filter, t.properties,
                limits.maxBlock)
  }

  /** Limits that admit the table. */
  predicate Admits(limits: Limits, t: Table) {
    && t.properties.maxBlock <= limits.maxBlock
    && |t.filter| + |t.index| + |EncodeProperties(t.properties)| + 3 * TRAILER <= limits.maxMetadata
  }

  lemma HeldPairs(payload: bytes, pairs: seq<Pair>)
    requires (payload, pairs) in HOLDS
    ensures Blocks.Acceptable(payload) && BlockPairs(payload) == pairs
  {
  }

  lemma IndexHeld(crc: Checksum, size: nat, t: Table)
    requires t in TABLES(crc, size)
    ensures IndexOf(t.index, |DataOf(crc, t.area)|) == Ok(IndexFor(t.area.metas))
  {
    HeldPairs(t.index, IndexPairs(t.area.metas));
    IndexOfArea(crc, t.area);
  }

  /** Every finished file passes all open checks, and the reader has the index and metadata that were written. */
  lemma TableOpens(crc: Checksum, size: nat, t: Table, limits: Limits, number: Option<u64>)
    requires t in TABLES(crc, size) && Admits(limits, t)
    requires number.Some? ==> number.value == t.properties.number
    ensures TableSize(crc, t) <= U64_MAX
    ensures Open(DecodersFor(crc), TableFile(crc, t), limits, number) == Ok(ReaderFor(crc, t, limits))
  {
    IndexHeld(crc, size, t);
    NonEmptyIndex(crc, size, t);
    OpenOf(crc, DataOf(crc, t.area), t.filter, t.index, t.properties, IndexFor(t.area.metas), limits, number);
  }

  lemma NonEmptyIndex(crc: Checksum, size: nat, t: Table)
    requires t in TABLES(crc, size)
    ensures IndexFor(t.area.metas) != []
  {
    AreaSizes(crc, t.area);
    JoinEnds(t.area.chunks);
  }

  // ----- Data blocks -----

  type PairReader = Handle -> Result<seq<Pair>>

  function PairsRead(crc: Checksum, r: TableReader): PairReader {
    (h: Handle) =>
      var b := ReadDataBlock(DecodersFor(crc), r, h);
      if b.Err? then Err else Ok(PairsOf(Blocks.Contents(b.value)))
  }

  lemma TableParts(crc: Checksum, size: nat, t: Table)
    requires t in TABLES(crc, size)
    ensures t.area in AREAS(crc) && t.properties.maxBlock == t.area.maxBlock && TableSize(crc, t) <= U64_MAX
    ensures |t.area.payloads| == |t.area.chunks| == |t.area.metas|
  {
  }

  lemma BlockFlushed(crc: Checksum, a: Area, i: nat)
    requires a in AREAS(crc) && i < |a.metas| == |a.payloads| == |a.chunks|
    ensures FlushedAt(crc, a, i)
  {
  }

  /** Where block `i` stands in the data area. */
  lemma BlockInArea(crc: Checksum, a: Area, i: nat)
    requires a in AREAS(crc) && i < |a.metas| == |a.payloads| == |a.chunks|
    ensures var h := a.metas[i].handle;
            && h.offset + h.size <= |DataOf(crc, a)|
            && DataOf(crc, a)[h.offset..h.offset + h.size] == StoredBlock(crc, a.payloads[i])
            && h.size == |a.payloads[i]| + TRAILER
    ensures (a.payloads[i], a.chunks[i]) in HOLDS && |a.payloads[i]| <= a.maxBlock
  {
    BlockFlushed(crc, a, i);
    StoredStands(crc, a.payloads, i);
  }

  lemma StoredStands(crc: Checksum, payloads: seq<bytes>, i: nat)
    requires i < |payloads|
    ensures var at := At(StoredAll(crc, payloads), i); var data := Join(StoredAll(crc, payloads));
            && at + |payloads[i]| + TRAILER <= |data|
            && data[at..at + |payloads[i]| + TRAILER] == StoredBlock(crc, payloads[i])
  {
    JoinAt(StoredAll(crc, payloads), i);
  }

  lemma FileStarts(crc: Checksum, t: Table)
    requires TableSize(crc, t) <= U64_MAX
    ensures DataOf(crc, t.area) <= TableFile(crc, t)
  {
  }

  lemma SliceOfFront(file: bytes, data: bytes, i: nat, j: nat)
    requires data <= file && i <= j <= |data|
    ensures file[i..j] == data[i..j]
  {
  }

  /** Block `i` of a finished table is a checked block that holds the rows packed into it. */
  lemma BlockContents(crc: Checksum, size: nat, t: Table, i: nat)
    requires t in TABLES(crc, size) && i < |t.area.metas|
    ensures |t.area.payloads| == |t.area.chunks| == |t.area.metas|
    ensures Blocks.Acceptable(t.area.payloads[i])
    ensures PairsOf(Blocks.Contents(Blocks.BlockOf(t.area.payloads[i]))) == t.area.chunks[i]
  {
    TableParts(crc, size, t);
    BlockInArea(crc, t.area, i);
    HeldPairs(t.area.payloads[i], t.area.chunks[i]);
  }

  lemma ReadStoredBlock(d: Decoders, r: TableReader, data: bytes, h: Handle, stored: bytes, payload: bytes,
                        b: Blocks.Block)
    requires data <= r.file && r.dataEnd == |data| && h.offset + h.size <= |data|
    requires data[h.offset..h.offset + h.size] == stored && d.unseal(stored) == Ok(payload) && d.block(payload) == Ok(b)
    requires h.size == |payload| + TRAILER && |payload| <= r.maxBlock
    ensures ReadDataBlock(d, r, h) == Ok(b)
  {
    SliceOfFront(r.file, data, h.offset, h.offset + h.size);
    DataBlockRead(d, r, h, stored, payload, b);
  }

  lemma BlockReadsIn(d: Decoders, crc: Checksum, a: Area, r: TableReader, i: nat, b: Blocks.Block)
    requires a in AREAS(crc) && i < |a.metas| == |a.payloads| == |a.chunks| && a.maxBlock <= r.maxBlock
    requires DataOf(crc, a) <= r.file && r.dataEnd == |DataOf(crc, a)|
    requires d.unseal(StoredBlock(crc, a.payloads[i])) == Ok(a.payloads[i]) && d.block(a.payloads[i]) == Ok(b)
    ensures ReadDataBlock(d, r, a.metas[i].handle) == Ok(b)
  {
    BlockInArea(crc, a, i);
    ReadStoredBlock(d, r, DataOf(crc, a), a.metas[i].handle, StoredBlock(crc, a.payloads[i]), a.payloads[i], b);
  }

  /** Reading block `i` of a finished table through its handle succeeds. */
  lemma BlockReads(crc: Checksum, size: nat, t: Table, limits: Limits, i: nat)
    requires t in TABLES(crc, size) && i < |t.area.metas| && t.properties.maxBlock <= limits.maxBlock
    ensures |t.area.payloads| == |t.area.metas| && TableSize(crc, t) <= U64_MAX && Blocks.HasFooter(t.area.payloads[i])
    ensures ReadDataBlock(DecodersFor(crc), ReaderFor(crc, t, limits), t.area.metas[i].handle) ==
            Ok(Blocks.BlockOf(t.area.payloads[i]))
  {
    TableParts(crc, size, t);
    BlockContents(crc, size, t, i);
    FileStarts(crc, t);
    Unsealed(crc, t.area.payloads[i]);
    BlockBack(crc, t.area.payloads[i]);
    BlockReadsIn(DecodersFor(crc), crc, t.area, ReaderFor(crc, t, limits), i, Blocks.BlockOf(t.area.payloads[i]));
  }

  // ----- Iteration -----

  function DecodeRows(pairs: seq<Pair>): Result<seq<Row>> {
    if pairs == [] then Ok([]) else
      var front := DecodeRows(pairs[..|pairs| - 1]);
      var k := Decode(pairs[|pairs| - 1].0);
      if front.Err? || k.Err? then Err else Ok(front.value + [(k.value, pairs[|pairs| - 1].1)])
  }

  /** All rows of the first `n` blocks, or an error if any of them is damaged. */
  function ReadRows(read: PairReader, index: Index, n: nat): Result<seq<Row>>
    requires n <= |index|
  {
    if n == 0 then Ok([]) else
      var front := ReadRows(read, index, n - 1);
      if front.Err? then Err else
        var pairs := read(index[n - 1].1);
        if pairs.Err? then Err else
          var rows := DecodeRows(pairs.value);
          if rows.Err? then Err else Ok(front.value + rows.value)
  }

  /** Walks the blocks in index order; the first damaged block or key ends the walk with an error. */
  method Iterate(read: PairReader, index: Index) returns (rows: Result<seq<Row>>)
    ensures rows == ReadRows(read, index, |index|)
  {
    var all: seq<Row> := [];
    for i := 0 to |index|
      invariant ReadRows(read, index, i) == Ok(all)
    {
      var pairs := read(index[i].1);
      if pairs.Err? {
        ReadStops(read, index, i + 1, |index|);
        return Err;
      }
      var more := DecodePairs(pairs.value);
      if more.Err? {
        ReadStops(read, index, i + 1, |index|);
        return Err;
      }
      all := all + more.value;
    }
    return Ok(all);
  }

  method DecodePairs(pairs: seq<Pair>) returns (rows: Result<seq<Row>>)
    ensures rows == DecodeRows(pairs)
  {
    var all: seq<Row> := [];
    for i := 0 to |pairs|
      invariant DecodeRows(pairs[..i]) == Ok(all)
    {
      var k := Decode(pairs[i].0);
      assert pairs[..i + 1][..i] == pairs[..i];
      if k.Err? {
        DecodeStops(pairs, i + 1);
        return Err;
      }
      all := all + [(k.value, pairs[i].1)];
    }
    assert pairs[..|pairs|] == pairs;
    return Ok(all);
  }

  lemma {:induction false} DecodeStops(pairs: seq<Pair>, n: nat)
    requires n <= |pairs| && DecodeRows(pairs[..n]).Err?
    ensures DecodeRows(pairs).Err?
    decreases |pairs|
  {
    var m := |pairs|;
    if n < m {
      assert pairs[..m - 1][..n] == pairs[..n];
      DecodeStops(pairs[..m - 1], n);
    } else {
      assert pairs[..n] == pairs;
    }
  }

  lemma {:induction false} ReadStops(read: PairReader, index: Index, n: nat, m: nat)
    requires n <= m <= |index| && ReadRows(read, index, n).Err?
    ensures ReadRows(read, index, m).Err?
    decreases m - n
  {
    if n < m {
      ReadStops(read, index, n, m - 1);
    }
  }

  lemma {:induction false} DecodeRowsOf(rows: seq<Row>)
    requires forall i | 0 <= i < |rows| :: ValidSequence(rows[i].0.seqno)
    ensures DecodeRows(Pairs(rows)) == Ok(rows)
  {
    if rows != [] {
      var n := |rows| - 1;
      DecodeRowsOf(rows[..n]);
      assert Pairs(rows)[..n] == Pairs(rows[..n]);
      DecodeEncode(rows[n].0);
      assert rows == rows[..n] + [rows[n]];
    }
  }

  lemma DecodeSlice(rows: seq<Row>, i: nat, j: nat)
    requires RowsValid(rows) && i <= j <= |rows|
    ensures DecodeRows(Pairs(rows)[i..j]) == Ok(rows[i..j])
    ensures rows[..i] + rows[i..j] == rows[..j]
  {
    DecodeRowsOf(rows[i..j]);
    PairsSlice(rows, i, j);
    SliceJoin(rows, i, j);
  }

  lemma PairsSlice(rows: seq<Row>, i: nat, j: nat)
    requires i <= j <= |rows|
    ensures Pairs(rows)[i..j] == Pairs(rows[i..j])
  {
  }

  lemma SliceJoin<T>(s: seq<T>, i: nat, j: nat)
    requires i <= j <= |s|
    ensures s[..i] + s[i..j] == s[..j]
  {
  }

  /** Reading each chunk in turn reads the rows they were cut from. */
  lemma {:induction false} ReadRowsOf(read: PairReader, index: Index, chunks: seq<seq<Pair>>, rows: seq<Row>, n: nat)
    requires |index| == |chunks| && n <= |chunks| && Pairs(rows) == Join(chunks) && RowsValid(rows)
    requires forall i | 0 <= i < |chunks| :: read(index[i].1) == Ok(chunks[i])
    ensures At(chunks, n) <= |rows| && ReadRows(read, index, n) == Ok(rows[..At(chunks, n)])
  {
    if n == 0 {
      JoinEnds(chunks);
    } else {
      ReadRowsOf(read, index, chunks, rows, n - 1);
      JoinAt(chunks, n - 1);
      DecodeSlice(rows, At(chunks, n - 1), At(chunks, n));
      assert read(index[n - 1].1) == Ok(chunks[n - 1]);
    }
  }

  /** Every finished file iterates back to exactly the rows that were added. */
  lemma TableIterates(crc: Checksum, size: nat, t: Table, limits: Limits)
    requires t in TABLES(crc, size) && Admits(limits, t)
    ensures TableSize(crc, t) <= U64_MAX
    ensures var r := ReaderFor(crc, t, limits);
            ReadRows(PairsRead(crc, r), r.index, |r.index|) == Ok(t.rows)
  {
    var r := ReaderFor(crc, t, limits);
    TableParts(crc, size, t);
    forall i | 0 <= i < |t.area.chunks| ensures PairsRead(crc, r)(r.index[i].1) == Ok(t.area.chunks[i]) {
      BlockPairsRead(crc, size, t, limits, i);
    }
    RowsHeld(crc, size, t);
    ReadAllRows(PairsRead(crc, r), r.index, t.area.chunks, t.rows);
  }

  lemma BlockPairsRead(crc: Checksum, size: nat, t: Table, limits: Limits, i: nat)
    requires t in TABLES(crc, size) && Admits(limits, t) && i < |t.area.metas|
    ensures |t.area.metas| == |t.area.chunks| && TableSize(crc, t) <= U64_MAX
    ensures PairsRead(crc, ReaderFor(crc, t, limits))(t.area.metas[i].handle) == Ok(t.area.chunks[i])
  {
    BlockReads(crc, size, t, limits, i);
    BlockContents(crc, size, t, i);
  }

  lemma ReadAllRows(read: PairReader, index: Index, chunks: seq<seq<Pair>>, rows: seq<Row>)
    requires |index| == |chunks| && Pairs(rows) == Join(chunks) && RowsValid(rows)
    requires forall i | 0 <= i < |chunks| :: read(index[i].1) == Ok(chunks[i])
    ensures ReadRows(read, index, |index|) == Ok(rows)
  {
    ReadRowsOf(read, index, chunks, rows, |chunks|);
    JoinEnds(chunks);
    TakeDrop(rows, |rows|);
  }

  lemma RowsHeld(crc: Checksum, size: nat, t: Table)
    requires t in TABLES(crc, size)
    ensures Pairs(t.rows) == Join(t.area.chunks) && RowsValid(t.rows) && PairsIncrease(Pairs(t.rows))
  {
  }
}
