/** The visible lookup in a table file, and what it answers for a file the engine wrote. */
module TableVisible {
  import opened Bytes
  import opened Framing
  import opened InternalKeys
  import opened Mvcc
  import opened TableFormat
  import opened TableReading
  import opened BlockBuilding
  import opened TableBuilding
  import opened TableWriting
  import opened TableLookups
  import opened EngineValues

  // ----- The lookup -----

  type BlockReader = Handle -> Result<Blocks.Block>

  function BlocksRead(crc: Checksum, r: TableReader): BlockReader {
    (h: Handle) => ReadDataBlock(DecodersFor(crc), r, h)
  }

  function IndexKeys(index: Index): (r: seq<bytes>)
    ensures |r| == |index|
  {
    seq(|index|, i requires 0 <= i < |index| => index[i].0)
  }

  /** The entry found by a block seek, if it is a version of the key visible at `at`. */
  function Accepted(found: Option<Pair>, user: bytes, at: u64): Result<Option<Row>> {
    if found.None? then Ok(None) else
      var k := Decode(found.value.0);
      if k.Err? then Err
      else if k.value.user != user || k.value.seqno > at then Ok(None)
      else Ok(Some((k.value, found.value.1)))
  }

  /** Filter, index and one block decide the lookup. */
  function Visible(read: BlockReader, r: TableReader, user: bytes, at: u64): Result<Option<Row>>
    requires Bloom.ValidFilter(r.filter)
  {
    var seek := Routing.Seek(user, at);
    var i := Routing.Route(IndexKeys(r.index), seek, 0);
    if !Bloom.MayContain(r.filter, user) || i == |r.index| then Ok(None) else
      var b := read(r.index[i].1);
      if b.Err? then Err else
        var items := Blocks.Contents(b.value);
        Accepted(Blocks.PairAt(items, Blocks.Find(items, seek)), user, at)
  }

  method FindBlock(index: Index, seek: bytes) returns (i: nat)
    ensures i == Routing.Route(IndexKeys(index), seek, 0)
  {
    i := 0;
    while i < |index| && Less(index[i].0, seek)
      invariant i <= |index| && Routing.Route(IndexKeys(index), seek, 0) == Routing.Route(IndexKeys(index), seek, i)
    {
      assert IndexKeys(index)[i] == index[i].0;
      i := i + 1;
    }
    assert i < |index| ==> IndexKeys(index)[i] == index[i].0;
  }

  lemma ReadIsValid(crc: Checksum, r: TableReader, h: Handle)
    requires ReadDataBlock(DecodersFor(crc), r, h).Ok?
    ensures Blocks.Valid(ReadDataBlock(DecodersFor(crc), r, h).value)
  {
  }

  method GetVisible(crc: Checksum, r: TableReader, user: bytes, at: u64) returns (row: Result<Option<Row>>)
    requires Bloom.ValidFilter(r.filter)
    ensures row == Visible(BlocksRead(crc, r), r, user, at)
  {
    var may := Bloom.MayContainKey(r.filter, user);
    if !may {
      return Ok(None);
    }
    var seek := Routing.Seek(user, at);
    var i := FindBlock(r.index, seek);
    if i == |r.index| {
      return Ok(None);
    }
    var b := ReadDataBlock(DecodersFor(crc), r, r.index[i].1);
    if b.Err? {
      return Err;
    }
    ReadIsValid(crc, r, r.index[i].1);
    var found := Blocks.Seek(b.value, seek);
    row := Accepted(found, user, at);
  }

  // ----- A file the engine wrote -----

  function RowOf(e: Entry): Row {
    (Key(e), EncodeRecord(e.record))
  }

  function EntryPairs(block: seq<Entry>): (r: seq<Pair>)
    ensures |r| == |block|
  {
    seq(|block|, i requires 0 <= i < |block| => PairOf(RowOf(block[i])))
  }

  function RowAnswer(e: Option<Entry>): Option<Row> {
    if e.None? then None else Some(RowOf(e.value))
  }

  /** The table's blocks hold these entries. */
  ghost predicate HoldsEntries(t: Table, blocks: seq<Routing.Block>) {
    && |blocks| == |t.area.chunks|
    && forall i | 0 <= i < |blocks| :: t.area.chunks[i] == EntryPairs(blocks[i])
  }

  predicate KeysMatch(m: Meta, block: Routing.Block) {
    m.first == Routing.KeyBytes(block[0]) && m.last == Routing.KeyBytes(Routing.Last(block))
  }

  lemma EndPairs(block: Routing.Block)
    ensures EntryPairs(block)[0].0 == Routing.KeyBytes(block[0])
    ensures EntryPairs(block)[|block| - 1].0 == Routing.KeyBytes(Routing.Last(block))
  {
  }

  lemma MetaMatches(crc: Checksum, a: Area, i: nat, block: Routing.Block)
    requires a in AREAS(crc) && i < |a.metas| == |a.chunks| && a.chunks[i] == EntryPairs(block)
    ensures KeysMatch(a.metas[i], block)
  {
    MetaKeys(crc, a, i);
    EndPairs(block);
  }

  lemma SeparatorMatches(metas: seq<Meta>, blocks: seq<Routing.Block>, i: nat)
    requires |metas| == |blocks| && i < |metas| && forall j | 0 <= j < |metas| :: KeysMatch(metas[j], blocks[j])
    ensures Separator(metas, i) == Routing.Separator(blocks, i)
  {
    assert KeysMatch(metas[i], blocks[i]);
    if i + 1 < |metas| {
      assert KeysMatch(metas[i + 1], blocks[i + 1]);
    }
  }

  lemma SeparatorsMatch(metas: seq<Meta>, blocks: seq<Routing.Block>)
    requires |metas| == |blocks| && forall j | 0 <= j < |metas| :: KeysMatch(metas[j], blocks[j])
    ensures IndexKeys(IndexFor(metas)) == Routing.Separators(blocks)
  {
    forall i | 0 <= i < |metas| ensures IndexKeys(IndexFor(metas))[i] == Routing.Separators(blocks)[i] {
      SeparatorMatches(metas, blocks, i);
    }
  }

  lemma TableSeparators(crc: Checksum, size: nat, t: Table, blocks: seq<Routing.Block>)
    requires t in TABLES(crc, size) && HoldsEntries(t, blocks)
    ensures IndexKeys(IndexFor(t.area.metas)) == Routing.Separators(blocks)
  {
    TableParts(crc, size, t);
    forall j | 0 <= j < |t.area.metas| ensures KeysMatch(t.area.metas[j], blocks[j]) {
      MetaMatches(crc, t.area, j, blocks[j]);
    }
    SeparatorsMatch(t.area.metas, blocks);
  }

  /** Seeking in a block finds the entry the index search expects. */
  lemma BlockAnswers(items: seq<Blocks.Item>, block: seq<Entry>, user: bytes, at: u64)
    requires PairsOf(items) == EntryPairs(block) && forall e | e in block :: ValidSequence(e.seqno)
    ensures var seek := Routing.Seek(user, at);
            Accepted(Blocks.PairAt(items, Blocks.Find(items, seek)), user, at) ==
            Ok(RowAnswer(Routing.Match(block, Routing.LowerIn(block, seek, 0), user, at)))
  {
    var seek := Routing.Seek(user, at);
    var j := Routing.LowerIn(block, seek, 0);
    assert |items| == |block|;
    forall i | 0 <= i < |items|
      ensures items[i].key == Routing.KeyBytes(block[i]) && items[i].value == RowOf(block[i]).1
    {
      assert PairsOf(items)[i] == EntryPairs(block)[i];
    }
    Blocks.FindIs(items, seek, j);
    if j < |block| {
      assert block[j] in block;
      DecodeEncode(Key(block[j]));
    }
  }

  lemma EntryIsRow(rows: seq<Row>, chunks: seq<seq<Pair>>, i: nat, j: nat, e: Entry) returns (g: nat)
    requires Pairs(rows) == Join(chunks) && i < |chunks| && j < |chunks[i]| && chunks[i][j] == PairOf(RowOf(e))
    ensures g < |rows| && rows[g].0 == Key(e)
  {
    ChunkAt(chunks, i, j);
    g := At(chunks, i) + j;
    assert Pairs(rows)[g] == PairOf(rows[g]);
    EncodeInjective(rows[g].0, Key(e));
  }

  lemma FilterHas(crc: Checksum, size: nat, t: Table, g: nat)
    requires t in TABLES(crc, size) && g < |t.rows|
    ensures Bloom.ValidFilter(t.filter) && Bloom.MayContain(t.filter, t.rows[g].0.user)
  {
    assert FilterHolds(t.filter, t.rows);
  }

  lemma FoundEntry(blocks: seq<Routing.Block>, user: bytes, at: u64) returns (i: nat, j: nat)
    requires Routing.Lookup(blocks, user, at).Some?
    ensures i < |blocks| && j < |blocks[i]| && blocks[i][j].user == user
  {
    i := Routing.Route(Routing.Separators(blocks), Routing.Seek(user, at), 0);
    j := Routing.LowerIn(blocks[i], Routing.Seek(user, at), 0);
  }

  /** A lookup that finds an entry finds one of the table's, so the filter cannot have hidden it. */
  lemma FilterAgrees(crc: Checksum, size: nat, t: Table, blocks: seq<Routing.Block>, user: bytes, at: u64)
    requires t in TABLES(crc, size) && HoldsEntries(t, blocks) && Routing.Lookup(blocks, user, at).Some?
    ensures Bloom.ValidFilter(t.filter) && Bloom.MayContain(t.filter, user)
  {
    var i, j := FoundEntry(blocks, user, at);
    assert t.area.chunks[i] == EntryPairs(blocks[i]);
    RowsHeld(crc, size, t);
    var g := EntryIsRow(t.rows, t.area.chunks, i, j, blocks[i][j]);
    FilterHas(crc, size, t, g);
  }

  /** What the lookup answers, given the block it is routed to. */
  lemma VisibleIs(read: BlockReader, r: TableReader, blocks: seq<Routing.Block>, user: bytes, at: u64)
    requires Bloom.ValidFilter(r.filter) && IndexKeys(r.index) == Routing.Separators(blocks)
    requires Routing.Lookup(blocks, user, at).Some? ==> Bloom.MayContain(r.filter, user)
    requires var i := Routing.Route(Routing.Separators(blocks), Routing.Seek(user, at), 0);
             i < |blocks| ==>
               && read(r.index[i].1).Ok?
               && PairsOf(Blocks.Contents(read(r.index[i].1).value)) == EntryPairs(blocks[i])
               && forall e | e in blocks[i] :: ValidSequence(e.seqno)
    ensures Visible(read, r, user, at) == Ok(RowAnswer(Routing.Lookup(blocks, user, at)))
  {
    var i := Routing.Route(Routing.Separators(blocks), Routing.Seek(user, at), 0);
    if i < |blocks| {
      BlockAnswers(Blocks.Contents(read(r.index[i].1).value), blocks[i], user, at);
    }
  }

  lemma EntriesValid(crc: Checksum, size: nat, t: Table, blocks: seq<Routing.Block>, i: nat)
    requires t in TABLES(crc, size) && HoldsEntries(t, blocks) && i < |blocks|
    ensures forall e | e in blocks[i] :: ValidSequence(e.seqno)
  {
    RowsHeld(crc, size, t);
    forall e | e in blocks[i] ensures ValidSequence(e.seqno) {
      var j :| 0 <= j < |blocks[i]| && blocks[i][j] == e;
      assert t.area.chunks[i] == EntryPairs(blocks[i]);
      var g := EntryIsRow(t.rows, t.area.chunks, i, j, e);
      assert ValidSequence(t.rows[g].0.seqno);
    }
  }

  /** In a file the engine wrote, the lookup through filter, index and block is the routed lookup in its entries. */
  lemma TableAnswers(crc: Checksum, size: nat, t: Table, blocks: seq<Routing.Block>, limits: Limits, user: bytes,
                     at: u64)
    requires t in TABLES(crc, size) && HoldsEntries(t, blocks) && Admits(limits, t)
    ensures TableSize(crc, t) <= U64_MAX && Bloom.ValidFilter(t.filter)
    ensures var r := ReaderFor(crc, t, limits);
            Visible(BlocksRead(crc, r), r, user, at) == Ok(RowAnswer(Routing.Lookup(blocks, user, at)))
  {
    TableParts(crc, size, t);
    TableSeparators(crc, size, t, blocks);
    if Routing.Lookup(blocks, user, at).Some? {
      FilterAgrees(crc, size, t, blocks, user, at);
    }
    var i := Routing.Route(Routing.Separators(blocks), Routing.Seek(user, at), 0);
    if i < |blocks| {
      BlockReads(crc, size, t, limits, i);
      BlockContents(crc, size, t, i);
      EntriesValid(crc, size, t, blocks, i);
    }
    FilterValid(crc, size, t);
    var r := ReaderFor(crc, t, limits);
    VisibleIs(BlocksRead(crc, r), r, blocks, user, at);
  }

  lemma FilterValid(crc: Checksum, size: nat, t: Table)
    requires t in TABLES(crc, size)
    ensures Bloom.ValidFilter(t.filter)
  {
  }

  /** The lookup in a written file returns the newest visible version, if and only if no block boundary skips it. */
  lemma TableVisibleExact(crc: Checksum, size: nat, t: Table, blocks: seq<Routing.Block>, limits: Limits,
                          user: bytes, at: u64)
    requires t in TABLES(crc, size) && HoldsEntries(t, blocks) && Admits(limits, t) && Routing.Cut(blocks)
    ensures TableSize(crc, t) <= U64_MAX && Bloom.ValidFilter(t.filter)
    ensures var r := ReaderFor(crc, t, limits);
            Visible(BlocksRead(crc, r), r, user, at) == Ok(RowAnswer(Newest(Entries(Join(blocks)), user, at)))
            <==> !Routing.Skipped(blocks, user, at)
  {
    TableAnswers(crc, size, t, blocks, limits, user, at);
    Routing.LookupExact(blocks, user, at);
    AnswerInjective(Routing.Lookup(blocks, user, at), Newest(Entries(Join(blocks)), user, at));
  }

  /** Different entries are different rows. */
  lemma AnswerInjective(a: Option<Entry>, b: Option<Entry>)
    ensures RowAnswer(a) == RowAnswer(b) ==> a == b
  {
    if a.Some? && b.Some? && RowAnswer(a) == RowAnswer(b) {
      DecodeEncodeRecord(a.value.record);
      DecodeEncodeRecord(b.value.record);
    }
  }
}
