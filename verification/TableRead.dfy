/** Opening a table file and reading its blocks. */
module TableReading {
  import opened Bytes
  import opened Framing
  import opened TableFormat
  import opened BlockBuilding
  import Bloom

  datatype Limits = Limits(maxBlock: nat, maxMetadata: nat)

  /** Separator and handle of each data block. */
  type Index = seq<(bytes, Handle)>

  datatype TableReader = TableReader(
    file: bytes, dataEnd: nat, index: Index, filter: bytes, properties: Properties, maxBlock: nat)

  function Slice(file: bytes, h: Handle): Result<bytes> {
    if h.offset + h.size > |file| then Err else Ok(file[h.offset..h.offset + h.size])
  }

  // ----- The index -----

  type HandleReader = bytes -> Result<Handle>

  /** Data blocks fill the file from `from` up to `end` without gaps. */
  function ReadIndex(decode: HandleReader, pairs: seq<Pair>, end: nat, from: nat): Result<Index> {
    if pairs == [] then if from == end then Ok([]) else Err
    else
      var h := decode(pairs[0].1);
      if h.Err? || !Follows(h.value, end, from) then Err else
        var rest := ReadIndex(decode, pairs[1..], end, from + h.value.size);
        if rest.Err? then Err else Ok([(pairs[0].0, h.value)] + rest.value)
  }

  predicate Follows(h: Handle, end: nat, from: nat) {
    InRange(h, end) && h.offset == from
  }

  function AfterIndex(done: Index, rest: Result<Index>): Result<Index> {
    if rest.Err? then Err else Ok(done + rest.value)
  }

  method CheckIndex(decode: HandleReader, pairs: seq<Pair>, end: nat) returns (r: Result<Index>)
    ensures r == ReadIndex(decode, pairs, end, 0)
  {
    var index: Index := [];
    var previousEnd: nat := 0;
    assert pairs[0..] == pairs;
    AfterNothing(ReadIndex(decode, pairs, end, 0));
    for i := 0 to |pairs|
      invariant ReadIndex(decode, pairs, end, 0) == AfterIndex(index, ReadIndex(decode, pairs[i..], end, previousEnd))
    {
      var h := decode(pairs[i].1);
      IndexStep(decode, pairs, end, i, previousEnd, index);
      if h.Err? || !Follows(h.value, end, previousEnd) {
        return Err;
      }
      previousEnd := previousEnd + h.value.size;
      index := index + [(pairs[i].0, h.value)];
    }
    if previousEnd != end {
      return Err;
    }
    assert index + [] == index;
    return Ok(index);
  }

  lemma AfterNothing(rest: Result<Index>)
    ensures AfterIndex([], rest) == rest
  {
    if rest.Ok? {
      ConcatAssociative(rest.value, [], []);
    }
  }

  lemma IndexStep(decode: HandleReader, pairs: seq<Pair>, end: nat, i: nat, from: nat, done: Index)
    requires i < |pairs|
    ensures var h := decode(pairs[i].1);
            AfterIndex(done, ReadIndex(decode, pairs[i..], end, from)) ==
            if h.Err? || !Follows(h.value, end, from) then Err
            else AfterIndex(done + [(pairs[i].0, h.value)], ReadIndex(decode, pairs[i + 1..], end, from + h.value.size))
  {
    var h := decode(pairs[i].1);
    assert pairs[i..][1..] == pairs[i + 1..];
    if h.Ok? && Follows(h.value, end, from) {
      var rest := ReadIndex(decode, pairs[i + 1..], end, from + h.value.size);
      if rest.Ok? {
        ConcatAssociative(done, [(pairs[i].0, h.value)], rest.value);
      }
    }
  }

  // ----- Opening -----

  /** How the parts of a file are decoded. */
  datatype Decoders = Decoders(
    unseal: bytes -> Result<bytes>,
    footer: (bytes, nat) -> Result<Footer>,
    index: (bytes, nat) -> Result<Index>,
    properties: bytes -> Result<Properties>,
    block: bytes -> Result<Blocks.Block>)

  function BlockPairs(payload: bytes): seq<Pair>
    requires Blocks.HasFooter(payload)
  {
    PairsOf(Blocks.Contents(Blocks.BlockOf(payload)))
  }

  function IndexOf(payload: bytes, end: nat): Result<Index> {
    if Blocks.Acceptable(payload) then ReadIndex(DecodeHandle, BlockPairs(payload), end, 0) else Err
  }

  function DecodersFor(crc: Checksum): Decoders {
    Decoders(
      (s: bytes) => ReadStored(crc, s),
      (s: bytes, end: nat) => if |s| == FOOTER then ReadFooter(s, end) else Err,
      (s: bytes, end: nat) => IndexOf(s, end),
      (s: bytes) => DecodeProperties(s),
      (s: bytes) => if Blocks.Acceptable(s) then Ok(Blocks.BlockOf(s)) else Err)
  }

  function ReadPayload(d: Decoders, file: bytes, h: Handle): Result<bytes> {
    var s := Slice(file, h);
    if s.Err? then Err else d.unseal(s.value)
  }

  /** The three metadata blocks, once the footer has located them. */
  function ReadMetadata(d: Decoders, file: bytes, f: Footer): Result<(bytes, bytes, bytes)> {
    var index, filter, properties :=
      ReadPayload(d, file, f.index), ReadPayload(d, file, f.filter), ReadPayload(d, file, f.properties);
    if index.Err? || filter.Err? || properties.Err? then Err else Ok((index.value, filter.value, properties.value))
  }

  /** Checks the decoded metadata against each other and the reader's limits. */
  function Consistent(file: bytes, end: nat, entries: Result<Index>, filter: bytes, p: Result<Properties>,
                      limits: Limits,
                      number: Option<u64>): Result<TableReader>
  {
    if entries.Err? || entries.value == [] || !Bloom.ValidFilter(filter) || p.Err? then Err
    else if (number.Some? && p.value.number != number.value) || p.value.maxBlock > limits.maxBlock
         || p.value.blocks != |entries.value| then Err
    else Ok(TableReader(file, end, entries.value, filter, p.value, limits.maxBlock))
  }

  function Open(d: Decoders, file: bytes, limits: Limits, number: Option<u64>): Result<TableReader> {
    if limits.maxBlock == 0 || limits.maxMetadata == 0 || |file| < FOOTER then Err else
      var end := |file| - FOOTER;
      var f := d.footer(file[end..], end);
      if f.Err? || f.value.index.size + f.value.filter.size + f.value.properties.size > limits.maxMetadata then Err else
        var m := ReadMetadata(d, file, f.value);
        if m.Err? then Err else
          Consistent(file, f.value.filter.offset, d.index(m.value.0, f.value.filter.offset), m.value.1,
                     d.properties(m.value.2), limits, number)
  }

  /** Reads one data block, bounding what is allocated before and after the checksum. */
  function ReadDataBlock(d: Decoders, r: TableReader, h: Handle): Result<Blocks.Block> {
    if !InRange(h, r.dataEnd) || h.size > r.maxBlock + 32 + r.maxBlock / 6 + TRAILER then Err else
      var payload := ReadPayload(d, r.file, h);
      if payload.Err? || |payload.value| > r.maxBlock then Err else d.block(payload.value)
  }

  // ----- The layout of a written file -----

  function FooterFor(data: nat, filter: nat, index: nat, properties: nat): Footer {
    Footer(Handle(data + filter, index), Handle(data, filter), Handle(data + filter + index, properties))
  }

  function FileOf(data: bytes, filter: bytes, index: bytes, properties: bytes): bytes
    requires |data| + |filter| + |index| + |properties| <= U64_MAX
  {
    data + filter + index + properties
      + EncodeFooter(FooterFor(|data|, |filter|, |index|, |properties|))
  }

  lemma FileParts(data: bytes, filter: bytes, index: bytes, properties: bytes, footer: bytes)
    ensures var file := data + filter + index + properties + footer;
            var i, p, e := |data| + |filter|, |data| + |filter| + |index|, |data| + |filter| + |index| + |properties|;
            && file[..|data|] == data && file[|data|..i] == filter && file[i..p] == index && file[p..e] == properties
            && file[e..] == footer && |file| == e + |footer|
  {
  }

  lemma FooterRead(data: nat, filter: nat, index: nat, properties: nat)
    requires data + filter + index + properties <= U64_MAX && filter > 0 && index > 0 && properties > 0
    ensures var f := FooterFor(data, filter, index, properties);
            ReadFooter(EncodeFooter(f), data + filter + index + properties) == Ok(f)
  {
    ReadFooterOf(FooterFor(data, filter, index, properties), data + filter + index + properties);
  }

  /** Opening, for any decoders that accept the written parts. */
  lemma OpenParts(d: Decoders, data: bytes, x: bytes, y: bytes, z: bytes, footer: bytes, f: Footer, end: nat,
                  filter: bytes, index: bytes, properties: bytes, p: Properties, entries: Index,
                  limits: Limits, number: Option<u64>)
    requires f == FooterFor(|data|, |x|, |y|, |z|) && |footer| == FOOTER
    requires end == |data| + |x| + |y| + |z| && d.footer(footer, end) == Ok(f)
    requires d.unseal(x) == Ok(filter) && d.unseal(y) == Ok(index) && d.unseal(z) == Ok(properties)
    requires d.index(index, |data|) == Ok(entries) && entries != [] && d.properties(properties) == Ok(p)
    requires Bloom.ValidFilter(filter) && p.blocks == |entries| && 0 < p.maxBlock <= limits.maxBlock
    requires 0 < |x| && |x| + |y| + |z| <= limits.maxMetadata && (number.Some? ==> number.value == p.number)
    ensures var file := data + x + y + z + footer;
            Open(d, file, limits, number) == Ok(TableReader(file, |data|, entries, filter, p, limits.maxBlock))
  {
    FileParts(data, x, y, z, footer);
  }

  /** A file laid out this way opens, with the index and metadata that were written. */
  lemma OpenOf(crc: Checksum, data: bytes, filter: bytes, index: bytes, p: Properties, entries: Index,
               limits: Limits, number: Option<u64>)
    requires |data| + |filter| + |index| + |EncodeProperties(p)| + 3 * TRAILER <= U64_MAX
    requires IndexOf(index, |data|) == Ok(entries) && entries != []
    requires Bloom.ValidFilter(filter) && ValidProperties(p) && p.blocks == |entries| && p.maxBlock <= limits.maxBlock
    requires |filter| + |index| + |EncodeProperties(p)| + 3 * TRAILER <= limits.maxMetadata
    requires number.Some? ==> number.value == p.number
    ensures var file := FileOf(data, StoredBlock(crc, filter), StoredBlock(crc, index),
                               StoredBlock(crc, EncodeProperties(p)));
            Open(DecodersFor(crc), file, limits, number) ==
            Ok(TableReader(file, |data|, entries, filter, p, limits.maxBlock))
  {
    var x, y, z := StoredBlock(crc, filter), StoredBlock(crc, index), StoredBlock(crc, EncodeProperties(p));
    var f := FooterFor(|data|, |x|, |y|, |z|);
    var end := |data| + |x| + |y| + |z|;
    FooterBack(crc, |data|, |x|, |y|, |z|, f, end);
    Unsealed(crc, filter);
    Unsealed(crc, index);
    Unsealed(crc, EncodeProperties(p));
    PropertiesBack(crc, p);
    IndexBack(crc, index, |data|);
    OpenParts(DecodersFor(crc), data, x, y, z, EncodeFooter(f), f, end, filter, index, EncodeProperties(p), p, entries,
              limits, number);
  }

  lemma Unsealed(crc: Checksum, payload: bytes)
    ensures DecodersFor(crc).unseal(StoredBlock(crc, payload)) == Ok(payload)
  {
    ReadStoredOf(crc, payload);
  }

  lemma FooterBack(crc: Checksum, data: nat, filter: nat, index: nat, properties: nat, f: Footer, end: nat)
    requires data + filter + index + properties == end <= U64_MAX && filter > 0 && index > 0 && properties > 0
    requires f == FooterFor(data, filter, index, properties)
    ensures DecodersFor(crc).footer(EncodeFooter(f), end) == Ok(f)
  {
    FooterRead(data, filter, index, properties);
  }

  lemma PropertiesBack(crc: Checksum, p: Properties)
    requires ValidProperties(p)
    ensures DecodersFor(crc).properties(EncodeProperties(p)) == Ok(p)
  {
    DecodePropertiesOf(p);
  }

  lemma IndexBack(crc: Checksum, index: bytes, end: nat)
    ensures DecodersFor(crc).index(index, end) == IndexOf(index, end)
  {
  }

  lemma BlockBack(crc: Checksum, payload: bytes)
    requires Blocks.Acceptable(payload)
    ensures DecodersFor(crc).block(payload) == Ok(Blocks.BlockOf(payload))
  {
  }

  /** A block stored inside the data area reads back. */
  lemma DataBlockRead(d: Decoders, r: TableReader, h: Handle, stored: bytes, payload: bytes, b: Blocks.Block)
    requires h.offset + h.size <= r.dataEnd <= |r.file| && r.file[h.offset..h.offset + h.size] == stored
    requires d.unseal(stored) == Ok(payload) && d.block(payload) == Ok(b)
    requires h.size == |payload| + TRAILER && |payload| <= r.maxBlock
    ensures ReadDataBlock(d, r, h) == Ok(b)
  {
  }
}
