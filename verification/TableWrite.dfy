/** The table builder. */
module TableWriting {
  import opened Bytes
  import opened Framing
  import opened InternalKeys
  import opened TableFormat
  import opened TableReading
  import opened BlockBuilding
  import opened TableBuilding

  // ----- How rows are packed -----

  /** A block holds at most `size` key and value bytes, unless a single row needs more. */
  predicate Fits(chunk: seq<Pair>, size: nat) {
    |chunk| <= 1 || Weight(chunk) <= size
  }

  /** The first row of the next block did not fit. */
  predicate Tight(chunks: seq<seq<Pair>>, size: nat, i: nat)
    requires i + 1 < |chunks|
  {
    chunks[i + 1] != [] && Weight(chunks[i]) + PairWeight(chunks[i + 1][0]) > size
  }

  predicate Packed(chunks: seq<seq<Pair>>, size: nat) {
    && (forall i | 0 <= i < |chunks| :: Fits(chunks[i], size))
    && (forall i | 0 <= i < |chunks| - 1 :: Tight(chunks, size, i))
  }

  lemma PackedMore(chunks: seq<seq<Pair>>, open: seq<Pair>, p: Pair, size: nat)
    requires Packed(chunks + [open], size) && open != [] && Weight(open) + PairWeight(p) <= size
    ensures Packed(chunks + [open + [p]], size)
  {
    var few, all := chunks + [open], chunks + [open + [p]];
    WeightSnoc(open, p);
    assert forall i | 0 <= i < |chunks| :: Fits(all[i], size) by {
      assert forall i | 0 <= i < |chunks| :: all[i] == few[i];
    }
    forall i | 0 <= i < |all| - 1 ensures Tight(all, size, i) {
      assert Tight(few, size, i);
    }
  }

  lemma PackedNext(chunks: seq<seq<Pair>>, p: Pair, size: nat)
    requires Packed(chunks, size)
    requires chunks != [] ==> Weight(chunks[|chunks| - 1]) + PairWeight(p) > size
    ensures Packed(chunks + [[p]], size)
  {
    var all := chunks + [[p]];
    assert forall i | 0 <= i < |chunks| :: all[i] == chunks[i];
    forall i | 0 <= i < |all| - 1 ensures Tight(all, size, i) {
      if i < |chunks| - 1 {
        assert Tight(chunks, size, i);
      }
    }
  }

  // ----- What the builder knows of the rows -----

  function Users(rows: seq<Row>): (r: seq<bytes>)
    ensures |r| == |rows|
  {
    seq(|rows|, i requires 0 <= i < |rows| => rows[i].0.user)
  }

  predicate LastPair(pairs: seq<Pair>, key: Option<bytes>) {
    key == if pairs == [] then None else Some(pairs[|pairs| - 1].0)
  }

  predicate FirstPair(pairs: seq<Pair>, key: Option<bytes>) {
    key == if pairs == [] then None else Some(pairs[0].0)
  }

  predicate Bounds(rows: seq<Row>, smallest: Option<InternalKey>, largest: Option<InternalKey>) {
    && smallest == (if rows == [] then None else Some(rows[0].0))
    && largest == (if rows == [] then None else Some(rows[|rows| - 1].0))
  }

  predicate RowsValid(rows: seq<Row>) {
    forall i | 0 <= i < |rows| :: ValidSequence(rows[i].0.seqno) && |Encode(rows[i].0)| <= U64_MAX
  }

  /** Closed blocks, then the rows of the open one. */
  function Chunks(closed: seq<seq<Pair>>, open: seq<Pair>): seq<seq<Pair>> {
    if open == [] then closed else closed + [open]
  }

  lemma PairsRowSnoc(rows: seq<Row>, row: Row)
    ensures Pairs(rows + [row]) == Pairs(rows) + [PairOf(row)]
    ensures Users(rows + [row]) == Users(rows) + [row.0.user]
  {
  }

  lemma IncreaseSnoc(pairs: seq<Pair>, p: Pair)
    requires PairsIncrease(pairs)
    ensures PairsIncrease(pairs + [p]) <==> pairs == [] || Less(pairs[|pairs| - 1].0, p.0)
  {
    var all, m := pairs + [p], |pairs|;
    if m > 0 && Less(pairs[m - 1].0, p.0) {
      forall i, j | 0 <= i < j < |all| ensures Less(all[i].0, all[j].0) {
        if j == m && i < m - 1 {
          LessTransitive(pairs[i].0, pairs[m - 1].0, p.0);
        }
      }
    } else if m > 0 {
      assert all[m - 1] == pairs[m - 1] && all[m] == p;
    }
  }

  lemma PairHasWeight(row: Row)
    ensures PairWeight(PairOf(row)) >= 11
  {
  }

  /** A builder's fields beside its open block, with the rows they stand for. */
  datatype Writing = Writing(area: Area, file: bytes, open: seq<Pair>, pending: nat,
                             pendingFirst: Option<bytes>, pendingLast: Option<bytes>, previous: Option<bytes>,
                             filterKeys: seq<bytes>, entries: nat, smallest: Option<InternalKey>,
                             largest: Option<InternalKey>, rows: seq<Row>)

  /** The open block and what is remembered of it. */
  ghost predicate Pending(w: Writing) {
    && w.pending == Weight(w.open) && (w.pending == 0 <==> w.open == [])
    && FirstPair(w.open, w.pendingFirst) && LastPair(w.open, w.pendingLast)
  }

  /** What is remembered of all rows. */
  ghost predicate Summary(w: Writing) {
    && RowsValid(w.rows) && PairsIncrease(Pairs(w.rows)) && LastPair(Pairs(w.rows), w.previous)
    && w.filterKeys == Users(w.rows) && w.entries == |w.rows| && Bounds(w.rows, w.smallest, w.largest)
  }

  ghost predicate Consistent(crc: Checksum, size: nat, w: Writing) {
    && w.area in AREAS(crc) && w.file == DataOf(crc, w.area)
    && Pending(w) && Summary(w)
    && Pairs(w.rows) == Join(w.area.chunks) + w.open
    && Packed(Chunks(w.area.chunks, w.open), size)
  }

  ghost function WRITINGS(crc: Checksum, size: nat): iset<Writing> {
    iset w: Writing | Consistent(crc, size, w)
  }

  const NOTHING := Writing(Area([], [], [], 0), [], [], 0, None, None, None, [], 0, None, None, [])

  lemma NothingWritten(crc: Checksum, size: nat)
    ensures NOTHING in WRITINGS(crc, size)
  {
    NothingFlushed(crc);
  }

  function MetaOf(w: Writing, payload: bytes): Meta
    requires w.pendingFirst.Some? && w.pendingLast.Some?
  {
    Meta(w.pendingFirst.value, w.pendingLast.value, Handle(|w.file|, |payload| + TRAILER))
  }

  function AfterFlush(crc: Checksum, w: Writing, payload: bytes): Writing
    requires w.pendingFirst.Some? && w.pendingLast.Some?
  {
    w.(area := WithBlock(crc, w.area, payload, w.open, MetaOf(w, payload)), file := w.file + StoredBlock(crc, payload),
       open := [], pending := 0, pendingFirst := None, pendingLast := None)
  }

  lemma WritingWhole(crc: Checksum, size: nat, w: Writing)
    requires w.area in AREAS(crc) && w.file == DataOf(crc, w.area)
    requires Pending(w) && Summary(w)
    requires Pairs(w.rows) == Join(w.area.chunks) + w.open && Packed(Chunks(w.area.chunks, w.open), size)
    ensures w in WRITINGS(crc, size)
  {
  }

  lemma Parts(crc: Checksum, size: nat, w: Writing)
    requires w in WRITINGS(crc, size)
    ensures w.area in AREAS(crc) && w.file == DataOf(crc, w.area)
    ensures Pending(w) && Summary(w)
    ensures Pairs(w.rows) == Join(w.area.chunks) + w.open && Packed(Chunks(w.area.chunks, w.open), size)
  {
  }

  lemma FlushRows(rows: seq<Pair>, chunks: seq<seq<Pair>>, open: seq<Pair>)
    requires rows == Join(chunks) + open
    ensures rows == Join(chunks + [open]) + []
  {
    JoinSnoc(chunks, open);
    ConcatAssociative(rows, [], []);
  }

  lemma FlushKeeps(crc: Checksum, size: nat, w: Writing, payload: bytes)
    requires w in WRITINGS(crc, size) && w.open != [] && (payload, w.open) in HOLDS && |payload| <= BlockBound(w.open)
    ensures w.pendingFirst.Some? && w.pendingLast.Some?
    ensures AfterFlush(crc, w, payload) in WRITINGS(crc, size)
  {
    Parts(crc, size, w);
    FlushedMore(crc, w.area, payload, w.open, MetaOf(w, payload));
    FlushRows(Pairs(w.rows), w.area.chunks, w.open);
    var v := AfterFlush(crc, w, payload);
    assert Chunks(v.area.chunks, v.open) == Chunks(w.area.chunks, w.open);
    assert Summary(v) && Pending(v);
    WritingWhole(crc, size, v);
  }

  function AfterAdd(w: Writing, row: Row): Writing {
    var p := PairOf(row);
    w.(open := w.open + [p], pending := w.pending + PairWeight(p),
       pendingFirst := if w.pendingFirst.None? then Some(p.0) else w.pendingFirst, pendingLast := Some(p.0),
       previous := Some(p.0), filterKeys := w.filterKeys + [row.0.user], entries := w.entries + 1,
       smallest := if w.smallest.None? then Some(row.0) else w.smallest, largest := Some(row.0),
       rows := w.rows + [row])
  }

  lemma PendingAdd(w: Writing, row: Row)
    requires Pending(w)
    ensures Pending(AfterAdd(w, row))
  {
    WeightSnoc(w.open, PairOf(row));
    PairHasWeight(row);
  }

  lemma SummaryAdd(w: Writing, row: Row)
    requires Summary(w) && ValidSequence(row.0.seqno) && |Encode(row.0)| <= U64_MAX
    requires w.previous.Some? ==> Less(w.previous.value, Encode(row.0))
    ensures Summary(AfterAdd(w, row))
  {
    PairsRowSnoc(w.rows, row);
    IncreaseSnoc(Pairs(w.rows), PairOf(row));
  }

  lemma PackedAdd(closed: seq<seq<Pair>>, open: seq<Pair>, p: Pair, size: nat)
    requires Packed(Chunks(closed, open), size)
    requires if open != [] then Weight(open) + PairWeight(p) <= size
             else closed != [] ==> Weight(closed[|closed| - 1]) + PairWeight(p) > size
    ensures Packed(Chunks(closed, open + [p]), size)
  {
    if open != [] {
      PackedMore(closed, open, p, size);
    } else {
      PackedNext(closed, p, size);
      assert [] + [p] == [p];
    }
  }

  /** The row goes into the open block, or opens one after a full block. */
  ghost predicate RoomFor(w: Writing, size: nat, row: Row) {
    if w.open != [] then w.pending + PairWeight(PairOf(row)) <= size
    else w.area.chunks != [] ==> Weight(w.area.chunks[|w.area.chunks| - 1]) + PairWeight(PairOf(row)) > size
  }

  lemma AddKeeps(crc: Checksum, size: nat, w: Writing, row: Row)
    requires w in WRITINGS(crc, size) && ValidSequence(row.0.seqno) && |Encode(row.0)| <= U64_MAX
    requires w.previous.Some? ==> Less(w.previous.value, Encode(row.0))
    requires RoomFor(w, size, row)
    ensures AfterAdd(w, row) in WRITINGS(crc, size)
  {
    Parts(crc, size, w);
    PendingAdd(w, row);
    SummaryAdd(w, row);
    PackedAdd(w.area.chunks, w.open, PairOf(row), size);
    PairsRowSnoc(w.rows, row);
    ConcatAssociative(Join(w.area.chunks), w.open, [PairOf(row)]);
    WritingWhole(crc, size, AfterAdd(w, row));
  }

  class TableBuilder {
    const crc: Checksum
    const number: u64
    const blockBytes: nat
    const interval: nat
    const bitsPerKey: byte
    const engineValues: bool
    var file: bytes
    var block: BlockBuilder
    var pending: nat
    var pendingFirst: Option<bytes>
    var pendingLast: Option<bytes>
    var previous: Option<bytes>
    var filterKeys: seq<bytes>
    var metas: seq<Meta>
    var entries: nat
    var smallest: Option<InternalKey>
    var largest: Option<InternalKey>
    var maxBlock: nat
    ghost var area: Area
    ghost var rows: seq<Row>

    ghost function State(): Writing
      reads this, block
    {
      Writing(area, file, PairsOf(block.items), pending, pendingFirst, pendingLast, previous, filterKeys, entries,
              smallest, largest, rows)
    }

    ghost predicate Good()
      reads this, block
    {
      && blockBytes > 0 && interval > 0 && bitsPerKey > 0
      && block.Good() && block.interval == interval
      && area.metas == metas && area.maxBlock == maxBlock
      && State() in WRITINGS(crc, blockBytes)
    }

    constructor (crc: Checksum, number: u64, blockBytes: nat, interval: nat, bitsPerKey: byte, engineValues: bool)
      requires blockBytes > 0 && interval > 0 && bitsPerKey > 0
      ensures Good() && rows == [] && fresh(block)
      ensures this.crc == crc && this.number == number && this.blockBytes == blockBytes
      ensures this.interval == interval && this.bitsPerKey == bitsPerKey && this.engineValues == engineValues
    {
      this.crc, this.number, this.blockBytes, this.interval := crc, number, blockBytes, interval;
      this.bitsPerKey, this.engineValues := bitsPerKey, engineValues;
      block := new BlockBuilder(interval);
      file, pending, pendingFirst, pendingLast, previous := [], 0, None, None, None;
      filterKeys, metas, entries, smallest, largest, maxBlock := [], [], 0, None, None, 0;
      area, rows := Area([], [], [], 0), [];
      new;
      NothingWritten(crc, blockBytes);
      assert State() == NOTHING;
    }

    /** Appends a finished block to the file and remembers where it stands. */
    method WriteBlock(payload: bytes)
      requires pendingFirst.Some? && pendingLast.Some?
      requires area.metas == metas && area.maxBlock == maxBlock
      modifies this`file, this`metas, this`maxBlock, this`area
      ensures file == old(file) + StoredBlock(crc, payload)
      ensures area == WithBlock(crc, old(area), payload, PairsOf(block.items), old(MetaOf(State(), payload)))
      ensures area.metas == metas && area.maxBlock == maxBlock
    {
      maxBlock := Larger(maxBlock, |payload|);
      var stored := StoredBlock(crc, payload);
      var m := Meta(pendingFirst.value, pendingLast.value, Handle(|file|, |stored|));
      area := WithBlock(crc, area, payload, PairsOf(block.items), m);
      file := file + stored;
      metas := metas + [m];
    }

    /** Starts the next block. */
    method NewBlock()
      requires interval > 0
      modifies this`block, this`pending, this`pendingFirst, this`pendingLast
      ensures block.Good() && block.interval == interval && block.items == [] && fresh(block)
      ensures pending == 0 && pendingFirst == None && pendingLast == None
    {
      pendingFirst, pendingLast := None, None;
      block := new BlockBuilder(interval);
      pending := 0;
    }

    method CloseBlock(payload: bytes)
      requires pendingFirst.Some? && pendingLast.Some? && interval > 0
      requires area.metas == metas && area.maxBlock == maxBlock
      modifies this
      ensures State() == AfterFlush(crc, old(State()), payload)
      ensures area.metas == metas && area.maxBlock == maxBlock
      ensures block.Good() && block.interval == interval && block.items == [] && fresh(block)
    {
      WriteBlock(payload);
      NewBlock();
    }

    /** Closes the open block and appends it to the file. */
    method FlushDataBlock()
      requires Good()
      modifies this
      ensures Good() && block.items == [] && (block == old(block) || fresh(block))
      ensures rows == old(rows) && previous == old(previous)
      ensures area.chunks == Chunks(old(area.chunks), old(PairsOf(block.items)))
    {
      NothingOpen(crc, blockBytes, State());
      if pending != 0 {
        var payload := block.Finish();
        FlushKeeps(crc, blockBytes, State(), payload);
        CloseBlock(payload);
      }
    }

    /** Between calls, every full block is followed by an open one. */
    ghost predicate Ready()
      reads this, block
    {
      Good() && (block.items == [] ==> area.chunks == [])
    }

    /** Flushes a block that the next row would overfill. */
    method MakeRoom(size: nat)
      requires Ready()
      modifies this
      ensures Good() && rows == old(rows) && previous == old(previous)
      ensures block == old(block) || (fresh(block) && block.items == [])
      ensures if block.items != [] then pending + size <= blockBytes
              else area.chunks != [] ==> Weight(area.chunks[|area.chunks| - 1]) + size > blockBytes
    {
      NothingOpen(crc, blockBytes, State());
      if pending != 0 && pending + size > blockBytes {
        FlushDataBlock();
      }
    }

    /** Remembers a row of the open block. */
    method NotePending(encoded: bytes, value: bytes)
      modifies this`pending, this`pendingFirst, this`pendingLast
      ensures pending == old(pending) + PairWeight((encoded, value)) && pendingLast == Some(encoded)
      ensures pendingFirst == if old(pendingFirst).None? then Some(encoded) else old(pendingFirst)
    {
      pending := pending + |encoded| + |value|;
      if pendingFirst.None? {
        pendingFirst := Some(encoded);
      }
      pendingLast := Some(encoded);
    }

    /** Remembers a row of the table. */
    method NoteRow(key: InternalKey, encoded: bytes, value: bytes)
      modifies this`previous, this`filterKeys, this`entries, this`smallest, this`largest, this`rows
      ensures previous == Some(encoded) && filterKeys == old(filterKeys) + [key.user] && entries == old(entries) + 1
      ensures smallest == (if old(smallest).None? then Some(key) else old(smallest)) && largest == Some(key)
      ensures rows == old(rows) + [(key, value)]
    {
      previous := Some(encoded);
      filterKeys := filterKeys + [key.user];
      entries := entries + 1;
      if smallest.None? {
        smallest := Some(key);
      }
      largest := Some(key);
      rows := rows + [(key, value)];
    }

    /** Remembers a row that has been added to the open block. */
    method Note(key: InternalKey, encoded: bytes, value: bytes, ghost before: Writing)
      requires encoded == Encode(key) && State() == before.(open := before.open + [(encoded, value)])
      modifies this`pending, this`pendingFirst, this`pendingLast, this`previous, this`filterKeys, this`entries,
               this`smallest, this`largest, this`rows
      ensures State() == AfterAdd(before, (key, value))
    {
      NotePending(encoded, value);
      NoteRow(key, encoded, value);
    }

    /** Adds a row exactly when its key is above the last one; only a block whose restart offsets have outgrown
        32 bits can refuse a row in order. */
    method Add(key: InternalKey, value: bytes) returns (ok: bool)
      requires Ready() && ValidSequence(key.seqno) && |Encode(key)| <= U64_MAX && |value| <= U64_MAX
      modifies this, block
      ensures Ready() && (block == old(block) || fresh(block))
      ensures ok ==>
                rows == old(rows) + [(key, value)] && (old(previous).None? || Less(old(previous).value, Encode(key)))
      ensures !ok ==> rows == old(rows)
      ensures !ok ==>
                (old(previous).Some? && !Less(old(previous).value, Encode(key))) || |old(block.entries)| >= U32_END
    {
      var encoded := Encode(key);
      if previous.Some? && !Less(previous.value, encoded) {
        return false;
      }
      MakeRoom(|encoded| + |value|);
      ok := Insert(key, encoded, value);
    }

    /** Adds a row for which there is room. */
    method Insert(key: InternalKey, encoded: bytes, value: bytes) returns (ok: bool)
      requires Good() && encoded == Encode(key) && ValidSequence(key.seqno) && |encoded| <= U64_MAX
      requires |value| <= U64_MAX
      requires previous.Some? ==> Less(previous.value, encoded)
      requires RoomFor(State(), blockBytes, (key, value))
      modifies this, block
      ensures Good() && block == old(block)
      ensures ok ==> rows == old(rows) + [(key, value)] && block.items != []
      ensures !ok ==> State() == old(State()) && block.items != [] && |old(block.entries)| >= U32_END
    {
      ghost var before := State();
      AddKeeps(crc, blockBytes, before, (key, value));
      OpenBelow(crc, blockBytes, before, block.State(), encoded);
      ok := block.Add(encoded, value);
      if ok {
        Note(key, encoded, value, before);
      }
    }

    /** Completes the file. It fails only for an empty table, or when a count or an offset outgrows its encoding. */
    method Finish() returns (r: Result<bytes>, ghost t: Table)
      requires Ready() && |rows| <= U64_MAX
      modifies this
      ensures r.Ok? ==> t in TABLES(crc, blockBytes) && TableSize(crc, t) <= U64_MAX && r.value == TableFile(crc, t)
      ensures t.rows == old(rows) && t.properties.number == number && t.properties.engineValues == engineValues
      ensures r.Err? ==> old(rows) == [] || TooLarge(crc, bitsPerKey, t)
    {
      SummaryCount(crc, blockBytes, State());
      if entries == 0 {
        return Err, Table(area, [], [], Properties(number, 1, 1, 1, ANY_KEY, ANY_KEY, engineValues), rows);
      }
      FlushDataBlock();
      SummaryCount(crc, blockBytes, State());
      if |file| > U64_MAX {
        return Err, Table(area, [], [], Properties(number, 1, 1, 1, ANY_KEY, ANY_KEY, engineValues), rows);
      }
      IndexReady(crc, blockBytes, State());
      var p := Properties(number, entries, |metas|, maxBlock, smallest.value, largest.value, engineValues);
      r, t := WriteTail(crc, blockBytes, interval, bitsPerKey, State(), metas, file, filterKeys, p);
    }
  }

  /** Writes filter, index, properties and footer behind the data blocks. */
  method WriteTail(crc: Checksum, ghost size: nat, interval: nat, bitsPerKey: byte, ghost w: Writing, metas: seq<Meta>,
                   file: bytes, filterKeys: seq<bytes>, p: Properties)
      returns (r: Result<bytes>, ghost t: Table)
    requires w in WRITINGS(crc, size) && w.open == [] && w.rows != [] && |w.rows| <= U64_MAX && |w.file| <= U64_MAX
    requires metas == w.area.metas && file == w.file && filterKeys == w.filterKeys
    requires p.entries == w.entries && p.blocks == |w.area.metas| && p.maxBlock == w.area.maxBlock
    requires Some(p.smallest) == w.smallest && Some(p.largest) == w.largest && interval > 0
    ensures r.Ok? ==> t in TABLES(crc, size) && TableSize(crc, t) <= U64_MAX && r.value == TableFile(crc, t)
    ensures t.rows == w.rows && t.properties == p
    ensures r.Err? ==> TooLarge(crc, bitsPerKey, t)
  {
    t := Table(w.area, [], [], p, w.rows);
    SummaryCount(crc, size, w);
    var filter := Bloom.FromKeys(filterKeys, bitsPerKey);
    if filter.Err? {
      return Err, t;
    }
    IndexReady(crc, size, w);
    var index := BuildIndex(metas, interval);
    if index.Err? {
      return Err, t;
    }
    t := Table(w.area, filter.value, index.value, p, w.rows);
    if |file| + |filter.value| + |index.value| + |EncodeProperties(p)| + 3 * TRAILER > U64_MAX {
      return Err, t;
    }
    FinishedTable(crc, size, w, filter.value, index.value, p);
    r := Ok(FileOf(file, StoredBlock(crc, filter.value), StoredBlock(crc, index.value),
                   StoredBlock(crc, EncodeProperties(p))));
  }

  /** A count or an offset outgrows its encoding. */
  ghost predicate TooLarge(crc: Checksum, bitsPerKey: byte, t: Table) {
    || bitsPerKey == 0 || |t.rows| * bitsPerKey > U64_MAX - 7
    || Weight(IndexPairs(t.area.metas)) + 30 * |t.area.metas| >= U32_END || TableSize(crc, t) > U64_MAX
  }

  // ----- A finished table -----

  const ANY_KEY := InternalKey([], 0, Deletion)

  datatype Table = Table(area: Area, filter: bytes, index: bytes, properties: Properties, rows: seq<Row>)

  function TableSize(crc: Checksum, t: Table): nat {
    |DataOf(crc, t.area)| + |t.filter| + |t.index| + |EncodeProperties(t.properties)| + 3 * TRAILER
  }

  function TableFile(crc: Checksum, t: Table): bytes
    requires TableSize(crc, t) <= U64_MAX
  {
    FileOf(DataOf(crc, t.area), StoredBlock(crc, t.filter), StoredBlock(crc, t.index),
           StoredBlock(crc, EncodeProperties(t.properties)))
  }

  /** Blocks that hold exactly the rows, in order and packed by size. */
  ghost predicate HoldsRows(crc: Checksum, size: nat, a: Area, rows: seq<Row>) {
    && a in AREAS(crc) && Pairs(rows) == Join(a.chunks) && rows != []
    && PairsIncrease(Pairs(rows)) && RowsValid(rows) && Packed(a.chunks, size)
  }

  ghost predicate FilterHolds(filter: bytes, rows: seq<Row>) {
    Bloom.ValidFilter(filter) && forall i | 0 <= i < |rows| :: Bloom.MayContain(filter, rows[i].0.user)
  }

  predicate PropertiesFit(p: Properties, a: Area, rows: seq<Row>) {
    && ValidProperties(p) && p.blocks == |a.metas| && p.maxBlock == a.maxBlock && p.entries == |rows|
    && rows != [] && p.smallest == rows[0].0 && p.largest == rows[|rows| - 1].0
  }

  ghost predicate IsTable(crc: Checksum, size: nat, t: Table) {
    && HoldsRows(crc, size, t.area, t.rows)
    && FilterHolds(t.filter, t.rows)
    && (t.index, IndexPairs(t.area.metas)) in HOLDS
    && PropertiesFit(t.properties, t.area, t.rows)
    && TableSize(crc, t) <= U64_MAX
  }

  ghost function TABLES(crc: Checksum, size: nat): iset<Table> {
    iset t: Table | IsTable(crc, size, t)
  }

  lemma TableJoin(crc: Checksum, size: nat, t: Table)
    requires HoldsRows(crc, size, t.area, t.rows) && FilterHolds(t.filter, t.rows)
    requires (t.index, IndexPairs(t.area.metas)) in HOLDS
    requires PropertiesFit(t.properties, t.area, t.rows) && TableSize(crc, t) <= U64_MAX
    ensures t in TABLES(crc, size)
  {
  }

  lemma RowKeysOrdered(rows: seq<Row>)
    requires rows != [] && PairsIncrease(Pairs(rows))
    ensures !KeyLess(rows[|rows| - 1].0, rows[0].0)
  {
    var n := |rows| - 1;
    if n > 0 {
      assert Less(Pairs(rows)[0].0, Pairs(rows)[n].0);
      EncodingOrder(rows[0].0, rows[n].0);
    }
    KeyLessTotal(rows[0].0, rows[n].0);
  }

  /** What the builder needs once every row is in a closed block. */
  lemma FinishFacts(crc: Checksum, size: nat, w: Writing)
    requires w in WRITINGS(crc, size) && w.open == [] && w.rows != []
    ensures MetasOrdered(w.area.metas) && MetaSizes(w.area.metas)
    ensures HoldsRows(crc, size, w.area, w.rows) && w.filterKeys == Users(w.rows) && w.entries == |w.rows|
    ensures w.smallest == Some(w.rows[0].0) && w.largest == Some(w.rows[|w.rows| - 1].0)
    ensures 0 < |w.area.metas| <= |w.rows| && 0 < w.area.maxBlock <= |w.file| && w.file == DataOf(crc, w.area)
  {
    Parts(crc, size, w);
    ConcatAssociative(Join(w.area.chunks), [], []);
    AreaOrdered(crc, w.area);
    AreaSizes(crc, w.area);
    forall i | 0 <= i < |Join(w.area.chunks)| ensures |Join(w.area.chunks)[i].0| <= U64_MAX {
      assert Pairs(w.rows)[i] == PairOf(w.rows[i]);
    }
    AreaMetaSizes(crc, w.area);
    if w.area.metas == [] {
      JoinEnds(w.area.chunks);
    }
  }

  lemma IndexReady(crc: Checksum, size: nat, w: Writing)
    requires w in WRITINGS(crc, size) && w.open == [] && w.rows != [] && |w.rows| <= U64_MAX && |w.file| <= U64_MAX
    ensures MetasOrdered(w.area.metas) && MetaSizes(w.area.metas) && HandleSizes(w.area.metas)
    ensures w.smallest.Some? && w.largest.Some? && w.entries == |w.rows| && w.file == DataOf(crc, w.area)
    ensures |w.area.metas| <= U64_MAX && w.area.maxBlock <= U64_MAX
  {
    FinishFacts(crc, size, w);
    AreaHandleSizes(crc, w.area);
  }

  /** The written parts form a table. */
  lemma FinishedTable(crc: Checksum, size: nat, w: Writing, filter: bytes, index: bytes, p: Properties)
    requires w in WRITINGS(crc, size) && w.open == [] && w.rows != [] && |w.rows| <= U64_MAX && |w.file| <= U64_MAX
    requires Bloom.ValidFilter(filter) && forall k | k in w.filterKeys :: Bloom.MayContain(filter, k)
    requires (index, IndexPairs(w.area.metas)) in HOLDS
    requires p.entries == w.entries && p.blocks == |w.area.metas| && p.maxBlock == w.area.maxBlock
    requires Some(p.smallest) == w.smallest && Some(p.largest) == w.largest
    requires TableSize(crc, Table(w.area, filter, index, p, w.rows)) <= U64_MAX
    ensures Table(w.area, filter, index, p, w.rows) in TABLES(crc, size)
  {
    FinishFacts(crc, size, w);
    FilterOf(filter, w.rows);
    PropertiesOf(crc, size, w.area, w.rows, p.number, p.engineValues);
    TableJoin(crc, size, Table(w.area, filter, index, p, w.rows));
  }

  lemma AreaHandleSizes(crc: Checksum, a: Area)
    requires a in AREAS(crc) && |DataOf(crc, a)| <= U64_MAX
    ensures HandleSizes(a.metas)
  {
    forall i | 0 <= i < |a.metas| ensures |EncodeHandle(a.metas[i].handle)| <= U64_MAX {
      assert FlushedAt(crc, a, i);
      JoinAt(StoredAll(crc, a.payloads), i);
      HandleWidth(a.metas[i].handle);
    }
  }

  lemma FilterOf(filter: bytes, rows: seq<Row>)
    requires Bloom.ValidFilter(filter) && forall k | k in Users(rows) :: Bloom.MayContain(filter, k)
    ensures FilterHolds(filter, rows)
  {
    forall i | 0 <= i < |rows| ensures Bloom.MayContain(filter, rows[i].0.user) {
      assert Users(rows)[i] in Users(rows);
    }
  }

  lemma PropertiesOf(crc: Checksum, size: nat, a: Area, rows: seq<Row>, number: u64, engineValues: bool)
    requires HoldsRows(crc, size, a, rows)
    requires 0 < |a.metas| <= |rows| <= U64_MAX && 0 < a.maxBlock <= U64_MAX
    ensures PropertiesFit(
              Properties(number, |rows|, |a.metas|, a.maxBlock, rows[0].0, rows[|rows| - 1].0, engineValues), a, rows)
  {
    RowKeysOrdered(rows);
  }

  /** The open block's last key is the last key of all. */
  lemma OpenBelow(crc: Checksum, size: nat, w: Writing, b: Building, key: bytes)
    requires w in WRITINGS(crc, size) && b in SOUND && w.open == PairsOf(b.items)
    requires w.previous.Some? ==> Less(w.previous.value, key)
    ensures b.items != [] ==> Less(b.previous, key)
    ensures b.items == [] ==> b.entries == []
  {
    if b.items == [] {
      EmptyEntries(b);
    } else {
      PreviousKey(b);
      Parts(crc, size, w);
      assert Pairs(w.rows)[|w.rows| - 1] == w.open[|w.open| - 1];
    }
  }

  lemma SummaryCount(crc: Checksum, size: nat, w: Writing)
    requires w in WRITINGS(crc, size)
    ensures w.entries == |w.rows| == |w.filterKeys| && w.file == DataOf(crc, w.area)
  {
  }

  lemma NothingOpen(crc: Checksum, size: nat, w: Writing)
    requires w in WRITINGS(crc, size)
    ensures w.pending == 0 <==> w.open == []
  {
  }
}
