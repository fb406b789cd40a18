/** How the engine stores a record as a table value. */
module EngineValues {
  import opened Bytes
  import opened InternalKeys
  import opened Mvcc
  import opened Codecs

  const HEADER := 6
  const MAGIC: bytes := [0x4d, 0x45, 0x56]
  const VERSION: byte := 1

  function EncodeRecord(r: Record): (s: bytes)
    ensures |s| >= HEADER
    ensures r.Stored? ==> |s| <= |r.value| + HEADER + 8
    ensures r.Tombstone? ==> |s| == HEADER
  {
    match r
    case Stored(value, None) => MAGIC + [VERSION, 0, 0] + value
    case Stored(value, Some(deadline)) => MAGIC + [VERSION, 0, 1] + U64(deadline) + value
    case Tombstone => MAGIC + [VERSION, 1, 0]
  }

  /** Decodes a table value; `engine` says whether the table was written by the engine. */
  function DecodeRecord(kind: ValueKind, s: bytes, engine: bool): Result<Record> {
    if !engine then Ok(if kind == Deletion then Tombstone else Stored(s, None))
    else if |s| < HEADER || s[..3] != MAGIC || s[3] != VERSION || s[5] > 1 then Err
    else if s[4] == 0 then
      if kind != Value then Err
      else if s[5] == 0 then Ok(Stored(s[HEADER..], None))
      else
        match TakeU64(s[HEADER..])
        case Err => Err
        case Ok((deadline, value)) => Ok(Stored(value, Some(deadline)))
    else if s[4] == 1 then
      if kind != Deletion || s[5] != 0 || |s| != HEADER then Err else Ok(Tombstone)
    else Err
  }

  /** Decoding inverts encoding. */
  lemma DecodeEncodeRecord(r: Record)
    ensures DecodeRecord(KindOf(r), EncodeRecord(r), true) == Ok(r)
  {
    var s := EncodeRecord(r);
    assert s[..3] == MAGIC;
    match r
    case Stored(value, None) =>
      assert s[HEADER..] == value;
    case Stored(value, Some(deadline)) =>
      assert s[HEADER..] == U64(deadline) + value;
      TakeU64Of(deadline, value);
    case Tombstone =>
  }

  /** Only encodings of records of the right kind are accepted. */
  lemma EncodeDecodeRecord(kind: ValueKind, s: bytes)
    requires DecodeRecord(kind, s, true).Ok?
    ensures EncodeRecord(DecodeRecord(kind, s, true).value) == s && KindOf(DecodeRecord(kind, s, true).value) == kind
  {
    HeaderSplit(s);
    if s[4] == 0 && s[5] == 1 {
      DeadlineSplit(s[HEADER..]);
    } else if s[4] == 1 {
      assert s[HEADER..] == [];
    }
  }

  lemma HeaderSplit(s: bytes)
    requires |s| >= HEADER
    ensures s == s[..3] + [s[3], s[4], s[5]] + s[HEADER..]
  {
  }

  lemma DeadlineSplit(t: bytes)
    requires TakeU64(t).Ok?
    ensures t == U64(TakeU64(t).value.0) + TakeU64(t).value.1
    ensures forall p: bytes :: p + t == p + U64(TakeU64(t).value.0) + TakeU64(t).value.1
  {
    FromLittleEndianRoundTrip(t[..8]);
    assert t == t[..8] + t[8..];
    forall p: bytes ensures p + t == p + t[..8] + t[8..] {
      ConcatAssociative(p, t[..8], t[8..]);
    }
  }
}
