/** The pieces of a table file: block handles, checksummed blocks, properties and the fixed footer. */
module TableFormat {
  import opened Bytes
  import opened Varints
  import opened Framing
  import opened InternalKeys

  // ----- Handles -----

  datatype Handle = Handle(offset: nat, size: nat)

  predicate ValidHandle(h: Handle) {
    h.offset + h.size <= U64_MAX
  }

  function EncodeHandle(h: Handle): (r: bytes)
    ensures |r| > 0
  {
    Put(h.offset) + Put(h.size)
  }

  function TakeHandle(s: bytes): Result<(Handle, bytes)> {
    var a := TakeNumber(s);
    if a.Err? then Err else
      var b := TakeNumber(a.value.1);
      if b.Err? || !ValidHandle(Handle(a.value.0, b.value.0)) then Err else
        Ok((Handle(a.value.0, b.value.0), b.value.1))
  }

  lemma TakeHandleOf(h: Handle, rest: bytes)
    requires ValidHandle(h)
    ensures TakeHandle(EncodeHandle(h) + rest) == Ok((h, rest))
  {
    ConcatAssociative(Put(h.offset), Put(h.size), rest);
    TakeBack(h.offset, Put(h.size) + rest);
    TakeBack(h.size, rest);
  }

  /** A handle and nothing else. */
  function DecodeHandle(s: bytes): Result<Handle> {
    var h := TakeHandle(s);
    if h.Err? || h.value.1 != [] then Err else Ok(h.value.0)
  }

  lemma DecodeHandleOf(h: Handle)
    requires ValidHandle(h)
    ensures DecodeHandle(EncodeHandle(h)) == Ok(h)
  {
    TakeHandleOf(h, []);
    ConcatAssociative(EncodeHandle(h), [], []);
  }

  lemma HandleWidth(h: Handle)
    requires ValidHandle(h)
    ensures |EncodeHandle(h)| <= SLOT
  {
    PutShort(h.offset);
    PutShort(h.size);
  }

  // ----- Checksummed blocks -----

  const TRAILER := 5
  const PLAIN: byte := 0

  function StoredBlock(crc: Checksum, payload: bytes): (r: bytes)
    ensures |r| == |payload| + TRAILER
  {
    payload + [PLAIN] + LittleEndian(Mask(crc(PLAIN, payload)), 4)
  }

  /** The payload of an uncompressed block whose checksum matches. */
  function ReadStored(crc: Checksum, s: bytes): Result<bytes> {
    if |s| < TRAILER then Err else
      var n := |s| - TRAILER;
      Pow256Values();
      if s[n] != PLAIN || Unmask(FromLittleEndian(s[n + 1..])) != crc(PLAIN, s[..n]) then Err else Ok(s[..n])
  }

  lemma ReadStoredOf(crc: Checksum, payload: bytes)
    ensures ReadStored(crc, StoredBlock(crc, payload)) == Ok(payload)
  {
    var s := StoredBlock(crc, payload);
    var n := |payload|;
    var m := Mask(crc(PLAIN, payload));
    assert s[..n] == payload && s[n] == PLAIN && s[n + 1..] == LittleEndian(m, 4);
    Pow256Values();
    LittleEndianRoundTrip(m, 4);
    UnmaskMask(crc(PLAIN, payload));
  }

  // ----- The footer -----

  const SLOT := 20
  const FOOTER := 72
  const FORMAT_VERSION := 2
  const MAGIC: bytes := [0x4d, 0x45, 0x54, 0x45, 0x4f, 0x52, 0x30, 0x31]

  function Slot(h: Handle): (r: bytes)
    requires ValidHandle(h)
    ensures |r| == SLOT
  {
    HandleWidth(h);
    EncodeHandle(h) + Zeros(SLOT - |EncodeHandle(h)|)
  }

  predicate InRange(h: Handle, limit: nat) {
    h.size > 0 && h.offset + h.size <= limit
  }

  /** A padded handle that lies below `limit`. */
  function ReadSlot(s: bytes, limit: nat): Result<Handle> {
    var h := TakeHandle(s);
    if h.Err? || !AllZero(h.value.1) || !InRange(h.value.0, limit) then Err else Ok(h.value.0)
  }

  predicate AllZero(s: bytes) {
    forall i | 0 <= i < |s| :: s[i] == 0
  }

  lemma ReadSlotOf(h: Handle, limit: nat)
    requires ValidHandle(h) && InRange(h, limit)
    ensures ReadSlot(Slot(h), limit) == Ok(h)
  {
    HandleWidth(h);
    var padding := Zeros(SLOT - |EncodeHandle(h)|);
    TakeHandleOf(h, padding);
    ReadPadded(EncodeHandle(h) + padding, h, padding, limit);
  }

  lemma ReadPadded(s: bytes, h: Handle, padding: bytes, limit: nat)
    requires TakeHandle(s) == Ok((h, padding)) && InRange(h, limit)
    requires forall i | 0 <= i < |padding| :: padding[i] == 0
    ensures ReadSlot(s, limit) == Ok(h)
  {
  }

  datatype Footer = Footer(index: Handle, filter: Handle, properties: Handle)

  function EncodeFooter(f: Footer): (r: bytes)
    requires ValidHandle(f.index) && ValidHandle(f.filter) && ValidHandle(f.properties)
    ensures |r| == FOOTER
  {
    Slot(f.index) + Slot(f.filter) + Slot(f.properties) + LittleEndian(FORMAT_VERSION, 4) + MAGIC
  }

  /** The metadata blocks follow one another without gaps, up to the footer. */
  predicate CanonicalLayout(f: Footer, end: nat) {
    && f.filter.offset + f.filter.size == f.index.offset
    && f.index.offset + f.index.size == f.properties.offset
    && f.properties.offset + f.properties.size == end
  }

  /** Reads the footer of a table whose footer begins at `end`. */
  function ReadFooter(s: bytes, end: nat): Result<Footer>
    requires |s| == FOOTER
  {
    Pow256Values();
    if s[64..] != MAGIC || FromLittleEndian(s[60..64]) != FORMAT_VERSION then Err else
      var index, filter, properties := ReadSlot(s[..20], end), ReadSlot(s[20..40], end), ReadSlot(s[40..60], end);
      if index.Err? || filter.Err? || properties.Err? then Err else
        var f := Footer(index.value, filter.value, properties.value);
        if CanonicalLayout(f, end) then Ok(f) else Err
  }

  lemma FooterParts(a: bytes, b: bytes, c: bytes, v: bytes, m: bytes)
    requires |a| == |b| == |c| == SLOT && |v| == 4 && |m| == 8
    ensures var s := a + b + c + v + m;
            s[..20] == a && s[20..40] == b && s[40..60] == c && s[60..64] == v && s[64..] == m
  {
  }

  lemma ReadFooterOf(f: Footer, end: nat)
    requires ValidHandle(f.index) && ValidHandle(f.filter) && ValidHandle(f.properties)
    requires InRange(f.index, end) && InRange(f.filter, end) && InRange(f.properties, end) && CanonicalLayout(f, end)
    ensures ReadFooter(EncodeFooter(f), end) == Ok(f)
  {
    FooterParts(Slot(f.index), Slot(f.filter), Slot(f.properties), LittleEndian(FORMAT_VERSION, 4), MAGIC);
    ReadSlotOf(f.index, end);
    ReadSlotOf(f.filter, end);
    ReadSlotOf(f.properties, end);
    Pow256Values();
    LittleEndianRoundTrip(FORMAT_VERSION, 4);
  }

  // ----- Properties -----

  datatype Properties = Properties(number: u64, entries: u64, blocks: u64, maxBlock: u64,
                                   smallest: InternalKey, largest: InternalKey, engineValues: bool)

  predicate ValidProperties(p: Properties) {
    && ValidSequence(p.smallest.seqno) && ValidSequence(p.largest.seqno)
    && |Encode(p.smallest)| <= U64_MAX && |Encode(p.largest)| <= U64_MAX
    && !KeyLess(p.largest, p.smallest)
    && p.entries > 0 && p.blocks > 0 && p.maxBlock > 0
  }

  function SizedKey(k: InternalKey): bytes {
    Put(|Encode(k)|) + Encode(k)
  }

  function EngineMark(on: bool): bytes {
    if on then [0xe1, 1] else []
  }

  function EncodeProperties(p: Properties): bytes {
    Put(p.number) + (Put(p.entries) + (Put(p.blocks) + ([PLAIN] + (Put(p.maxBlock)
      + (SizedKey(p.smallest) + (SizedKey(p.largest) + EngineMark(p.engineValues)))))))
  }

  function TakeKey(s: bytes): Result<(InternalKey, bytes)> {
    var n := TakeNumber(s);
    if n.Err? || n.value.0 > |n.value.1| then Err else
      var k := Decode(n.value.1[..n.value.0]);
      if k.Err? then Err else Ok((k.value, n.value.1[n.value.0..]))
  }

  /** Four counters around the compression marker, of which only the uncompressed one is modelled. */
  function TakeCounts(s: bytes): Result<((nat, nat, nat, nat), bytes)> {
    var a := TakeNumber(s);
    if a.Err? then Err else
      var b := TakeNumber(a.value.1);
      if b.Err? then Err else
        var c := TakeNumber(b.value.1);
        if c.Err? || c.value.1 == [] || c.value.1[0] != PLAIN then Err else
          var d := TakeNumber(c.value.1[1..]);
          if d.Err? then Err else Ok(((a.value.0, b.value.0, c.value.0, d.value.0), d.value.1))
  }

  /** Both key bounds and the optional value-encoding mark, to the end of the string. */
  function TakeBounds(s: bytes): Result<(InternalKey, InternalKey, bool)> {
    var a := TakeKey(s);
    if a.Err? then Err else
      var b := TakeKey(a.value.1);
      if b.Err? then Err
      else if b.value.1 == [] then Ok((a.value.0, b.value.0, false))
      else if b.value.1 == [0xe1, 1] then Ok((a.value.0, b.value.0, true))
      else Err
  }

  function DecodeProperties(s: bytes): Result<Properties> {
    var n := TakeCounts(s);
    if n.Err? then Err else
      var k := TakeBounds(n.value.1);
      if k.Err? then Err else
        var (number, entries, blocks, maxBlock) := n.value.0;
        if KeyLess(k.value.1, k.value.0) || entries == 0 || blocks == 0 || maxBlock == 0
           || number > U64_MAX || entries > U64_MAX || blocks > U64_MAX || maxBlock > U64_MAX then Err
        else Ok(Properties(number, entries, blocks, maxBlock, k.value.0, k.value.1, k.value.2))
  }

  lemma TakeKeyOf(k: InternalKey, rest: bytes)
    requires ValidSequence(k.seqno) && |Encode(k)| <= U64_MAX
    ensures TakeKey(SizedKey(k) + rest) == Ok((k, rest))
  {
    ConcatAssociative(Put(|Encode(k)|), Encode(k), rest);
    TakeBack(|Encode(k)|, Encode(k) + rest);
    ConcatParts(Encode(k), rest);
    DecodeEncode(k);
  }

  lemma TakeCountsOf(a: u64, b: u64, c: u64, d: u64, rest: bytes)
    ensures TakeCounts(Put(a) + (Put(b) + (Put(c) + ([PLAIN] + (Put(d) + rest))))) == Ok(((a, b, c, d), rest))
  {
    var s3 := Put(d) + rest;
    var s2 := [PLAIN] + s3;
    var s1 := Put(c) + s2;
    TakeBack(a, Put(b) + s1);
    TakeBack(b, s1);
    TakeBack(c, s2);
    assert s2[1..] == s3;
    TakeBack(d, rest);
  }

  lemma TakeBoundsOf(a: InternalKey, b: InternalKey, on: bool)
    requires ValidSequence(a.seqno) && |Encode(a)| <= U64_MAX && ValidSequence(b.seqno) && |Encode(b)| <= U64_MAX
    ensures TakeBounds(SizedKey(a) + (SizedKey(b) + EngineMark(on))) == Ok((a, b, on))
  {
    TakeKeyOf(a, SizedKey(b) + EngineMark(on));
    TakeKeyOf(b, EngineMark(on));
  }

  lemma DecodePropertiesOf(p: Properties)
    requires ValidProperties(p)
    ensures DecodeProperties(EncodeProperties(p)) == Ok(p)
  {
    var rest := SizedKey(p.smallest) + (SizedKey(p.largest) + EngineMark(p.engineValues));
    TakeCountsOf(p.number, p.entries, p.blocks, p.maxBlock, rest);
    TakeBoundsOf(p.smallest, p.largest, p.engineValues);
  }
}
