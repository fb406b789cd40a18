/** Writing a table file: rows are packed into blocks, followed by the filter, the index, the properties and the
    footer. */
module TableBuilding {
  import opened Bytes
  import opened Framing
  import opened InternalKeys
  import opened TableFormat
  import opened TableReading
  import opened BlockBuilding
  import Routing

  type Row = (InternalKey, bytes)

  function PairOf(row: Row): Pair {
    (Encode(row.0), row.1)
  }

  function Pairs(rows: seq<Row>): (r: seq<Pair>)
    ensures |r| == |rows|
  {
    seq(|rows|, i requires 0 <= i < |rows| => PairOf(rows[i]))
  }

  // ----- Flushed blocks -----

  /** What the builder remembers of a flushed block. */
  datatype Meta = Meta(first: bytes, last: bytes, handle: Handle)

  function StoredAll(crc: Checksum, payloads: seq<bytes>): (r: seq<bytes>)
    ensures |r| == |payloads|
  {
    seq(|payloads|, i requires 0 <= i < |payloads| => StoredBlock(crc, payloads[i]))
  }

  /** The data area: blocks that hold `chunks`, and what is remembered of them. */
  datatype Area = Area(payloads: seq<bytes>, metas: seq<Meta>, chunks: seq<seq<Pair>>, maxBlock: nat)

  ghost predicate BlockHolds(payload: bytes, chunk: seq<Pair>, maxBlock: nat) {
    (payload, chunk) in HOLDS && chunk != [] && |payload| <= BlockBound(chunk) && |payload| <= maxBlock
  }

  predicate Describes(m: Meta, chunk: seq<Pair>, offset: nat, size: nat) {
    chunk != [] && m.first == chunk[0].0 && m.last == chunk[|chunk| - 1].0 && m.handle == Handle(offset, size)
  }

  ghost predicate FlushedAt(crc: Checksum, a: Area, i: nat)
    requires i < |a.payloads| == |a.metas| == |a.chunks|
  {
    && BlockHolds(a.payloads[i], a.chunks[i], a.maxBlock)
    && Describes(a.metas[i], a.chunks[i], At(StoredAll(crc, a.payloads), i), |a.payloads[i]| + TRAILER)
  }

  predicate LargestIs(payloads: seq<bytes>, n: nat) {
    if payloads == [] then n == 0 else exists i | 0 <= i < |payloads| :: |payloads[i]| == n
  }

  ghost predicate Flushed(crc: Checksum, a: Area) {
    && |a.payloads| == |a.metas| == |a.chunks|
    && a.maxBlock <= |DataOf(crc, a)| && LargestIs(a.payloads, a.maxBlock)
    && forall i | 0 <= i < |a.payloads| :: FlushedAt(crc, a, i)
  }

  ghost function AREAS(crc: Checksum): iset<Area> {
    iset a: Area | Flushed(crc, a)
  }

  function DataOf(crc: Checksum, a: Area): bytes {
    Join(StoredAll(crc, a.payloads))
  }

  function Larger(a: nat, b: nat): nat {
    if a < b then b else a
  }

  function WithBlock(crc: Checksum, a: Area, payload: bytes, chunk: seq<Pair>, m: Meta): Area {
    Area(a.payloads + [payload], a.metas + [m], a.chunks + [chunk], Larger(a.maxBlock, |payload|))
  }

  lemma StoredSnoc(crc: Checksum, payloads: seq<bytes>, payload: bytes)
    ensures StoredAll(crc, payloads + [payload]) == StoredAll(crc, payloads) + [StoredBlock(crc, payload)]
  {
  }

  lemma LargestMore(payloads: seq<bytes>, n: nat, payload: bytes)
    requires LargestIs(payloads, n)
    ensures LargestIs(payloads + [payload], Larger(n, |payload|))
  {
    var all := payloads + [payload];
    if |payload| < n {
      var i :| 0 <= i < |payloads| && |payloads[i]| == n;
      assert |all[i]| == n;
    } else {
      assert |all[|payloads|]| == |payload|;
    }
  }

  /** Flushing one more block keeps everything said of the earlier ones. */
  lemma FlushedMore(crc: Checksum, a: Area, payload: bytes, chunk: seq<Pair>, m: Meta)
    requires a in AREAS(crc)
    requires BlockHolds(payload, chunk, |payload|) && Describes(m, chunk, |DataOf(crc, a)|, |payload| + TRAILER)
    ensures WithBlock(crc, a, payload, chunk, m) in AREAS(crc)
    ensures DataOf(crc, WithBlock(crc, a, payload, chunk, m)) == DataOf(crc, a) + StoredBlock(crc, payload)
  {
    var b := WithBlock(crc, a, payload, chunk, m);
    StoredSnoc(crc, a.payloads, payload);
    JoinSnoc(StoredAll(crc, a.payloads), StoredBlock(crc, payload));
    JoinEnds(StoredAll(crc, a.payloads));
    LargestMore(a.payloads, a.maxBlock, payload);
    forall i | 0 <= i < |b.payloads| ensures FlushedAt(crc, b, i) {
      if i < |a.payloads| {
        assert FlushedAt(crc, a, i);
      }
    }
  }

  lemma NothingFlushed(crc: Checksum)
    ensures Area([], [], [], 0) in AREAS(crc) && DataOf(crc, Area([], [], [], 0)) == []
  {
  }

  // ----- The index -----

  function Separator(metas: seq<Meta>, i: nat): bytes
    requires i < |metas|
  {
    if i + 1 < |metas| then Routing.ShortestSeparator(metas[i].last, metas[i + 1].first) else metas[i].last
  }

  function IndexFor(metas: seq<Meta>): (r: Index)
    ensures |r| == |metas|
  {
    seq(|metas|, i requires 0 <= i < |metas| => (Separator(metas, i), metas[i].handle))
  }

  function IndexPairs(metas: seq<Meta>): (r: seq<Pair>)
    ensures |r| == |metas|
  {
    seq(|metas|, i requires 0 <= i < |metas| => (Separator(metas, i), EncodeHandle(metas[i].handle)))
  }

  /** The entry of block `i`, standing where the stored pieces put it. */
  ghost predicate IndexEntry(decode: HandleReader, pair: Pair, entry: (bytes, Handle), pieces: seq<bytes>, i: nat)
    requires i < |pieces|
  {
    && pair.0 == entry.0 && decode(pair.1) == Ok(entry.1)
    && entry.1 == Handle(At(pieces, i), |pieces[i]|) && pieces[i] != []
  }

  lemma {:induction false} ReadIndexOf(decode: HandleReader, pairs: seq<Pair>, index: Index, pieces: seq<bytes>, i: nat)
    requires |pairs| == |index| == |pieces| && i <= |pairs|
    requires forall j | 0 <= j < |pairs| :: IndexEntry(decode, pairs[j], index[j], pieces, j)
    ensures ReadIndex(decode, pairs[i..], |Join(pieces)|, At(pieces, i)) == Ok(index[i..])
    decreases |pairs| - i
  {
    if i == |pairs| {
      JoinEnds(pieces);
    } else {
      assert IndexEntry(decode, pairs[i], index[i], pieces, i);
      JoinAt(pieces, i);
      ReadIndexOf(decode, pairs, index, pieces, i + 1);
      IndexStep(decode, pairs, |Join(pieces)|, i, At(pieces, i), []);
      AfterNothing(ReadIndex(decode, pairs[i..], |Join(pieces)|, At(pieces, i)));
      assert index[i..] == [index[i]] + index[i + 1..];
    }
  }

  /** Reading the index of a flushed area gives back its separators and handles. */
  lemma IndexOfArea(crc: Checksum, a: Area)
    requires a in AREAS(crc) && |DataOf(crc, a)| <= U64_MAX
    ensures ReadIndex(DecodeHandle, IndexPairs(a.metas), |DataOf(crc, a)|, 0) == Ok(IndexFor(a.metas))
  {
    var pairs, index, pieces := IndexPairs(a.metas), IndexFor(a.metas), StoredAll(crc, a.payloads);
    forall j | 0 <= j < |pairs| ensures IndexEntry(DecodeHandle, pairs[j], index[j], pieces, j) {
      assert FlushedAt(crc, a, j);
      JoinAt(pieces, j);
      DecodeHandleOf(index[j].1);
    }
    ReadIndexOf(DecodeHandle, pairs, index, pieces, 0);
    JoinEnds(pieces);
    assert pairs[0..] == pairs && index[0..] == index;
  }

  // ----- Order -----

  lemma ChunkAt(chunks: seq<seq<Pair>>, i: nat, j: nat)
    requires i < |chunks| && j < |chunks[i]|
    ensures At(chunks, i) + j < |Join(chunks)| && Join(chunks)[At(chunks, i) + j] == chunks[i][j]
    ensures At(chunks, i + 1) == At(chunks, i) + |chunks[i]| <= |Join(chunks)|
  {
    JoinAt(chunks, i);
    assert Join(chunks)[At(chunks, i)..At(chunks, i + 1)][j] == chunks[i][j];
  }

  predicate PairsIncrease(pairs: seq<Pair>) {
    forall i, j | 0 <= i < j < |pairs| :: Less(pairs[i].0, pairs[j].0)
  }

  predicate InOrder(metas: seq<Meta>, i: nat)
    requires i < |metas|
  {
    LessEq(metas[i].first, metas[i].last) && (i + 1 < |metas| ==> Less(metas[i].last, metas[i + 1].first))
  }

  predicate MetasOrdered(metas: seq<Meta>) {
    forall i | 0 <= i < |metas| :: InOrder(metas, i)
  }

  lemma MetaKeys(crc: Checksum, a: Area, i: nat)
    requires a in AREAS(crc) && i < |a.metas|
    ensures |a.chunks| == |a.metas| && a.chunks[i] != []
    ensures a.metas[i].first == a.chunks[i][0].0 && a.metas[i].last == a.chunks[i][|a.chunks[i]| - 1].0
  {
    assert FlushedAt(crc, a, i);
  }

  lemma AreaOrdered(crc: Checksum, a: Area)
    requires a in AREAS(crc) && PairsIncrease(Join(a.chunks))
    ensures MetasOrdered(a.metas)
  {
    forall i | 0 <= i < |a.metas| ensures InOrder(a.metas, i) {
      MetaKeys(crc, a, i);
      ChunkAt(a.chunks, i, 0);
      ChunkAt(a.chunks, i, |a.chunks[i]| - 1);
      if i + 1 < |a.metas| {
        MetaKeys(crc, a, i + 1);
        ChunkAt(a.chunks, i + 1, 0);
      }
    }
  }

  /** Separators stand between their blocks. */
  lemma SeparatorBounds(metas: seq<Meta>, i: nat)
    requires MetasOrdered(metas) && i < |metas|
    ensures LessEq(metas[i].last, Separator(metas, i))
    ensures i + 1 < |metas| ==> Less(Separator(metas, i), metas[i + 1].first)
  {
    assert InOrder(metas, i);
    if i + 1 < |metas| {
      Routing.SeparatorBetween(metas[i].last, metas[i + 1].first);
    }
  }

  lemma SeparatorsIncrease(metas: seq<Meta>, i: nat)
    requires MetasOrdered(metas) && i + 1 < |metas|
    ensures Less(Separator(metas, i), Separator(metas, i + 1))
  {
    SeparatorBounds(metas, i);
    SeparatorBounds(metas, i + 1);
    assert InOrder(metas, i + 1);
    LessThrough(Separator(metas, i), metas[i + 1].first, metas[i + 1].last, Separator(metas, i + 1));
  }

  lemma LessThrough(w: bytes, x: bytes, y: bytes, z: bytes)
    requires Less(w, x) && LessEq(x, y) && LessEq(y, z)
    ensures Less(w, z)
  {
    if x != y {
      LessTransitive(w, x, y);
    }
    if y != z {
      LessTransitive(w, y, z);
    }
  }

  lemma AreaSizes(crc: Checksum, a: Area)
    requires a in AREAS(crc)
    ensures |a.metas| == |a.chunks| <= |Join(a.chunks)|
    ensures a.maxBlock <= |DataOf(crc, a)| && (a.metas != [] ==> a.maxBlock > 0)
  {
    forall i | 0 <= i < |a.chunks| ensures a.chunks[i] != [] {
      assert FlushedAt(crc, a, i);
    }
    AtAscends(a.chunks, 0, |a.chunks|);
    JoinEnds(a.chunks);
    if a.metas != [] {
      assert FlushedAt(crc, a, 0);
      HeldSize(a.payloads[0], a.chunks[0]);
    }
  }

  lemma HeldSize(payload: bytes, chunk: seq<Pair>)
    requires (payload, chunk) in HOLDS
    ensures |payload| > 0
  {
  }

  predicate MetaSizes(metas: seq<Meta>) {
    forall i | 0 <= i < |metas| :: |metas[i].last| <= U64_MAX
  }

  lemma AreaMetaSizes(crc: Checksum, a: Area)
    requires a in AREAS(crc) && forall i | 0 <= i < |Join(a.chunks)| :: |Join(a.chunks)[i].0| <= U64_MAX
    ensures MetaSizes(a.metas)
  {
    forall i | 0 <= i < |a.metas| ensures |a.metas[i].last| <= U64_MAX {
      MetaKeys(crc, a, i);
      ChunkAt(a.chunks, i, |a.chunks[i]| - 1);
    }
  }

  lemma SeparatorSize(metas: seq<Meta>, i: nat)
    requires MetaSizes(metas) && i < |metas|
    ensures |Separator(metas, i)| <= U64_MAX
  {
    assert |Separator(metas, i)| <= |metas[i].last|;
  }

  lemma {:induction false} WeightPrefix(pairs: seq<Pair>, n: nat)
    requires n <= |pairs|
    ensures Weight(pairs[..n]) <= Weight(pairs)
    decreases |pairs|
  {
    var m := |pairs|;
    if n < m {
      WeightPrefix(pairs[..m - 1], n);
      assert pairs[..m - 1][..n] == pairs[..n];
    } else {
      assert pairs[..n] == pairs;
    }
  }

  lemma TakeSnoc<T>(s: seq<T>, i: nat)
    requires i < |s|
    ensures s[..i + 1] == s[..i] + [s[i]]
  {
  }

  lemma TooLong(b: Building, pairs: seq<Pair>, i: nat)
    requires b in SOUND && i <= |pairs| && PairsOf(b.items) == pairs[..i] && |b.entries| >= U32_END
    ensures Weight(pairs) + 30 * |pairs| >= U32_END
  {
    SoundCost(b);
    WeightPrefix(pairs, i);
  }

  /** Adds the entry of block `i` to the index. */
  method AddIndexEntry(builder: BlockBuilder, metas: seq<Meta>, i: nat) returns (ok: bool)
    requires MetasOrdered(metas) && MetaSizes(metas) && i < |metas|
    requires |EncodeHandle(metas[i].handle)| <= U64_MAX
    requires builder.Good() && PairsOf(builder.items) == IndexPairs(metas)[..i]
    modifies builder
    ensures builder.Good()
    ensures ok ==> PairsOf(builder.items) == IndexPairs(metas)[..i + 1]
    ensures !ok ==> Weight(IndexPairs(metas)) + 30 * |metas| >= U32_END
  {
    if i > 0 {
      SeparatorsIncrease(metas, i - 1);
      PreviousKey(builder.State());
    }
    SeparatorSize(metas, i);
    ghost var before := builder.State();
    ok := builder.Add(Separator(metas, i), EncodeHandle(metas[i].handle));
    if !ok {
      TooLong(before, IndexPairs(metas), i);
    }
    TakeSnoc(IndexPairs(metas), i);
  }

  predicate HandleSizes(metas: seq<Meta>) {
    forall i | 0 <= i < |metas| :: |EncodeHandle(metas[i].handle)| <= U64_MAX
  }

  /** Writes the index block, unless its restart offsets outgrow 32 bits. */
  method BuildIndex(metas: seq<Meta>, interval: nat) returns (r: Result<bytes>)
    requires interval > 0 && MetasOrdered(metas) && MetaSizes(metas) && HandleSizes(metas)
    ensures r.Ok? ==> (r.value, IndexPairs(metas)) in HOLDS
    ensures r.Err? ==> Weight(IndexPairs(metas)) + 30 * |metas| >= U32_END
  {
    var builder := new BlockBuilder(interval);
    for i := 0 to |metas|
      invariant builder.Good() && PairsOf(builder.items) == IndexPairs(metas)[..i] && fresh(builder)
    {
      var ok := AddIndexEntry(builder, metas, i);
      if !ok {
        return Err;
      }
    }
    TakeDrop(IndexPairs(metas), |metas|);
    var payload := builder.Finish();
    return Ok(payload);
  }
}
