/** The logical record of a write batch. */
module BatchCodecs {
  import opened Bytes
  import opened Codecs
  import opened MemTables

  const FORMAT: byte := 1
  const PUT_TAG: byte := 1
  const DELETE_TAG: byte := 2

  // ----- Format -----

  /** Keys and values fit the format's 32-bit lengths. */
  predicate Encodable(op: WriteOp) {
    |op.key| < U32_END && (op.Put? ==> |op.value| < U32_END)
  }

  function EncodeOp(op: WriteOp): bytes
    requires Encodable(op)
  {
    match op
    case Put(key, value, expires) =>
      [PUT_TAG] + (U32(|key|) + (U32(|value|) + (OptU64(expires) + (key + value))))
    case Delete(key) =>
      [DELETE_TAG] + (U32(|key|) + key)
  }

  function EncodeOps(ops: Batch): bytes
    requires forall op | op in ops :: Encodable(op)
  {
    EncodeMany(EncodeOp, ops)
  }

  predicate BatchEncodable(batch: Batch) {
    |batch| < U32_END && forall op | op in batch :: Encodable(op)
  }

  function EncodeBatch(sequence: u64, batch: Batch): bytes
    requires BatchEncodable(batch)
  {
    [FORMAT] + (U64(sequence) + (U32(|batch|) + EncodeOps(batch)))
  }

  function DecodePut(s: bytes): Parsed<WriteOp> {
    match TakeU32(s)
    case Err => Err
    case Ok((keyLength, s1)) =>
      match TakeU32(s1)
      case Err => Err
      case Ok((valueLength, s2)) =>
        match TakeOptU64(s2)
        case Err => Err
        case Ok((expires, s3)) =>
          match Take(s3, keyLength)
          case Err => Err
          case Ok((key, s4)) =>
            match Take(s4, valueLength)
            case Err => Err
            case Ok((value, rest)) => Ok((Put(key, value, expires), rest))
  }

  function DecodeDelete(s: bytes): Parsed<WriteOp> {
    match TakeU32(s)
    case Err => Err
    case Ok((keyLength, s1)) =>
      match Take(s1, keyLength)
      case Err => Err
      case Ok((key, rest)) => Ok((Delete(key), rest))
  }

  function DecodeOp(s: bytes): Parsed<WriteOp> {
    match TakeByte(s)
    case Err => Err
    case Ok((tag, rest)) =>
      if tag == PUT_TAG then DecodePut(rest) else if tag == DELETE_TAG then DecodeDelete(rest) else Err
  }

  /** Rejects other formats and empty batches. */
  function DecodeHeader(s: bytes): Parsed<(u64, u32)> {
    match TakeByte(s)
    case Err => Err
    case Ok((version, s1)) =>
      if version != FORMAT then Err else
        match TakeU64(s1)
        case Err => Err
        case Ok((sequence, s2)) =>
          match TakeU32(s2)
          case Err => Err
          case Ok((count, rest)) => if count == 0 then Err else Ok(((sequence, count), rest))
  }

  /** A header, its operations and nothing more. */
  function DecodeBatch(s: bytes): Result<(u64, Batch)> {
    match DecodeHeader(s)
    case Err => Err
    case Ok((header, s1)) =>
      match TakeMany(DecodeOp, s1, header.1)
      case Err => Err
      case Ok((ops, rest)) => if rest != [] then Err else Ok((header.0, ops))
  }

  // ----- Round trips -----

  lemma DecodeOpOf(op: WriteOp, rest: bytes)
    requires Encodable(op)
    ensures DecodeOp(EncodeOp(op) + rest) == Ok((op, rest))
  {
    match op {
      case Put(key, value, expires) => DecodePutOf(key, value, expires, rest);
      case Delete(key) =>
        ConcatAssociative([DELETE_TAG], U32(|key|) + key, rest);
        ConcatAssociative(U32(|key|), key, rest);
        TakeByteOf(DELETE_TAG, U32(|key|) + (key + rest));
        TakeU32Of(|key|, key + rest);
        TakeOf(key, rest);
    }
  }

  lemma DecodePutOf(key: bytes, value: bytes, expires: Option<u64>, rest: bytes)
    requires |key| < U32_END && |value| < U32_END
    ensures DecodeOp(EncodeOp(Put(key, value, expires)) + rest) == Ok((Put(key, value, expires), rest))
  {
    var a, b, c := U32(|key|), U32(|value|), OptU64(expires);
    var t5 := key + (value + rest);
    assert EncodeOp(Put(key, value, expires)) + rest == [PUT_TAG] + (a + (b + (c + t5))) by {
      ConcatAssociative([PUT_TAG], a + (b + (c + (key + value))), rest);
      ConcatAssociative(a, b + (c + (key + value)), rest);
      ConcatAssociative(b, c + (key + value), rest);
      ConcatAssociative(c, key + value, rest);
      ConcatAssociative(key, value, rest);
    }
    TakeByteOf(PUT_TAG, a + (b + (c + t5)));
    TakeU32Of(|key|, b + (c + t5));
    TakeU32Of(|value|, c + t5);
    TakeOptU64Of(expires, t5);
    TakeOf(key, value + rest);
    TakeOf(value, rest);
  }

  lemma DecodeOpsOf(ops: Batch, rest: bytes)
    requires forall op | op in ops :: Encodable(op)
    ensures TakeMany(DecodeOp, EncodeOps(ops) + rest, |ops|) == Ok((ops, rest))
  {
    forall op, r: bytes | op in ops ensures DecodeOp(EncodeOp(op) + r) == Ok((op, r)) {
      DecodeOpOf(op, r);
    }
    TakeManyOf(DecodeOp, EncodeOp, ops, rest);
  }

  /** Decoding inverts encoding for every nonempty batch. */
  lemma DecodeEncode(sequence: u64, batch: Batch)
    requires BatchEncodable(batch) && batch != []
    ensures DecodeBatch(EncodeBatch(sequence, batch)) == Ok((sequence, batch))
  {
    var ops := EncodeOps(batch);
    TakeByteOf(FORMAT, U64(sequence) + (U32(|batch|) + ops));
    TakeU64Of(sequence, U32(|batch|) + ops);
    TakeU32Of(|batch|, ops);
    DecodeOpsOf(batch, []);
    assert ops + [] == ops;
  }

  lemma DecodeOpIs(s: bytes)
    requires DecodeOp(s).Ok?
    ensures var (op, rest) := DecodeOp(s).value; Encodable(op) && s == EncodeOp(op) + rest
  {
    TakeByteIs(s);
    var (tag, s1) := TakeByte(s).value;
    if tag == PUT_TAG {
      DecodePutIs(s, s1);
    } else {
      TakeU32Is(s1);
      var (keyLength, s2) := TakeU32(s1).value;
      TakeIs(s2, keyLength);
      var (key, rest) := Take(s2, keyLength).value;
      ConcatAssociative(U32(keyLength), key, rest);
      ConcatAssociative([DELETE_TAG], U32(keyLength) + key, rest);
    }
  }

  lemma DecodePutIs(s: bytes, s1: bytes)
    requires s == [PUT_TAG] + s1 && DecodePut(s1).Ok?
    ensures var (op, rest) := DecodePut(s1).value; op.Put? && Encodable(op) && s == EncodeOp(op) + rest
  {
    TakeU32Is(s1);
    var (keyLength, s2) := TakeU32(s1).value;
    TakeU32Is(s2);
    var (valueLength, s3) := TakeU32(s2).value;
    TakeOptU64Is(s3);
    var (expires, s4) := TakeOptU64(s3).value;
    TakeIs(s4, keyLength);
    var (key, s5) := Take(s4, keyLength).value;
    TakeIs(s5, valueLength);
    var (value, rest) := Take(s5, valueLength).value;
    var a, b, c := U32(keyLength), U32(valueLength), OptU64(expires);
    assert [PUT_TAG] + (a + (b + (c + (key + (value + rest))))) == EncodeOp(Put(key, value, expires)) + rest by {
      ConcatAssociative([PUT_TAG], a + (b + (c + (key + value))), rest);
      ConcatAssociative(a, b + (c + (key + value)), rest);
      ConcatAssociative(b, c + (key + value), rest);
      ConcatAssociative(c, key + value, rest);
      ConcatAssociative(key, value, rest);
    }
  }

  lemma DecodeOpsIs(s: bytes, n: nat)
    requires TakeMany(DecodeOp, s, n).Ok?
    ensures var (ops, rest) := TakeMany(DecodeOp, s, n).value;
            |ops| == n && (forall op | op in ops :: Encodable(op)) && s == EncodeOps(ops) + rest
  {
    forall t: bytes | DecodeOp(t).Ok?
      ensures Encodable(DecodeOp(t).value.0) && t == EncodeOp(DecodeOp(t).value.0) + DecodeOp(t).value.1
    {
      DecodeOpIs(t);
    }
    TakeManyIs(DecodeOp, EncodeOp, s, n);
  }

  lemma DecodeHeaderIs(s: bytes)
    requires DecodeHeader(s).Ok?
    ensures var ((sequence, count), rest) := DecodeHeader(s).value;
            count > 0 && s == [FORMAT] + (U64(sequence) + (U32(count) + rest))
  {
    TakeByteIs(s);
    var (_, s1) := TakeByte(s).value;
    TakeU64Is(s1);
    var (_, s2) := TakeU64(s1).value;
    TakeU32Is(s2);
  }

  /** Every accepted record is the encoding of the batch it decodes to. */
  lemma EncodeDecode(s: bytes)
    requires DecodeBatch(s).Ok?
    ensures var (sequence, batch) := DecodeBatch(s).value;
            BatchEncodable(batch) && batch != [] && EncodeBatch(sequence, batch) == s
  {
    DecodeHeaderIs(s);
    var (header, s1) := DecodeHeader(s).value;
    DecodeOpsIs(s1, header.1);
    var (ops, rest) := TakeMany(DecodeOp, s1, header.1).value;
    assert EncodeOps(ops) + [] == EncodeOps(ops);
  }

  // ----- Encoding and decoding loops -----

  /** Appends the operations to the header one by one; lengths that do not fit are refused. */
  method Encoded(sequence: u64, batch: Batch) returns (r: Result<bytes>)
    ensures r.Ok? <==> BatchEncodable(batch)
    ensures r.Ok? ==> r.value == EncodeBatch(sequence, batch)
  {
    if |batch| >= U32_END {
      return Err;
    }
    var encoded := [FORMAT] + (U64(sequence) + U32(|batch|));
    ghost var header := encoded;
    for i := 0 to |batch|
      invariant forall op | op in batch[..i] :: Encodable(op)
      invariant encoded == header + EncodeOps(batch[..i])
    {
      if !Encodable(batch[i]) {
        return Err;
      }
      assert batch[..i + 1] == batch[..i] + [batch[i]];
      EncodeManySnoc(EncodeOp, batch[..i], batch[i]);
      ConcatAssociative(header, EncodeOps(batch[..i]), EncodeOp(batch[i]));
      encoded := encoded + EncodeOp(batch[i]);
    }
    TakeDrop(batch, |batch|);
    ConcatAssociative([FORMAT], U64(sequence) + U32(|batch|), EncodeOps(batch));
    ConcatAssociative(U64(sequence), U32(|batch|), EncodeOps(batch));
    return Ok(encoded);
  }

  class BatchDecoder {
    const encoded: bytes
    var position: nat

    ghost predicate Valid()
      reads this
    {
      position <= |encoded|
    }

    /** The bytes not read yet. */
    ghost function Rest(): bytes
      requires Valid()
      reads this
    {
      encoded[position..]
    }

    constructor (encoded: bytes)
      ensures Valid() && this.encoded == encoded && Rest() == encoded
    {
      this.encoded, position := encoded, 0;
    }

    method ReadBytes(n: nat) returns (r: Result<bytes>)
      requires Valid()
      modifies this
      ensures Valid()
      ensures r.Ok? <==> Take(old(Rest()), n).Ok?
      ensures r.Ok? ==> Take(old(Rest()), n) == Ok((r.value, Rest()))
    {
      if position + n > |encoded| {
        return Err;
      }
      r := Ok(encoded[position..position + n]);
      DropDrop(encoded, position, position + n);
      position := position + n;
    }

    method ReadByte() returns (r: Result<byte>)
      requires Valid()
      modifies this
      ensures Valid()
      ensures r.Ok? <==> TakeByte(old(Rest())).Ok?
      ensures r.Ok? ==> TakeByte(old(Rest())) == Ok((r.value, Rest()))
    {
      var s := ReadBytes(1);
      return if s.Ok? then Ok(s.value[0]) else Err;
    }

    method ReadU32() returns (r: Result<u32>)
      requires Valid()
      modifies this
      ensures Valid()
      ensures r.Ok? <==> TakeU32(old(Rest())).Ok?
      ensures r.Ok? ==> TakeU32(old(Rest())) == Ok((r.value, Rest()))
    {
      var s := ReadBytes(4);
      if s.Err? {
        return Err;
      }
      Pow256Values();
      return Ok(FromLittleEndian(s.value));
    }

    method ReadU64() returns (r: Result<u64>)
      requires Valid()
      modifies this
      ensures Valid()
      ensures r.Ok? <==> TakeU64(old(Rest())).Ok?
      ensures r.Ok? ==> TakeU64(old(Rest())) == Ok((r.value, Rest()))
    {
      var s := ReadBytes(8);
      if s.Err? {
        return Err;
      }
      Pow256Values();
      return Ok(FromLittleEndian(s.value));
    }

    method ReadExpiration() returns (r: Result<Option<u64>>)
      requires Valid()
      modifies this
      ensures Valid()
      ensures r.Ok? <==> TakeOptU64(old(Rest())).Ok?
      ensures r.Ok? ==> TakeOptU64(old(Rest())) == Ok((r.value, Rest()))
    {
      var marker := ReadByte();
      if marker.Err? || marker.value > 1 {
        return Err;
      }
      if marker.value == 0 {
        return Ok(None);
      }
      var n := ReadU64();
      return if n.Ok? then Ok(Some(n.value)) else Err;
    }

    method ReadPut() returns (r: Result<WriteOp>)
      requires Valid()
      modifies this
      ensures Valid()
      ensures r.Ok? <==> DecodePut(old(Rest())).Ok?
      ensures r.Ok? ==> DecodePut(old(Rest())) == Ok((r.value, Rest()))
    {
      var keyLength := ReadU32();
      if keyLength.Err? { return Err; }
      var valueLength := ReadU32();
      if valueLength.Err? { return Err; }
      var expires := ReadExpiration();
      if expires.Err? { return Err; }
      var key := ReadBytes(keyLength.value);
      if key.Err? { return Err; }
      var value := ReadBytes(valueLength.value);
      if value.Err? { return Err; }
      return Ok(Put(key.value, value.value, expires.value));
    }

    method ReadDelete() returns (r: Result<WriteOp>)
      requires Valid()
      modifies this
      ensures Valid()
      ensures r.Ok? <==> DecodeDelete(old(Rest())).Ok?
      ensures r.Ok? ==> DecodeDelete(old(Rest())) == Ok((r.value, Rest()))
    {
      var keyLength := ReadU32();
      if keyLength.Err? { return Err; }
      var key := ReadBytes(keyLength.value);
      if key.Err? { return Err; }
      return Ok(Delete(key.value));
    }

    method ReadOp() returns (r: Result<WriteOp>)
      requires Valid()
      modifies this
      ensures Valid()
      ensures r.Ok? <==> DecodeOp(old(Rest())).Ok?
      ensures r.Ok? ==> DecodeOp(old(Rest())) == Ok((r.value, Rest()))
    {
      var tag := ReadByte();
      if tag.Err? { return Err; }
      if tag.value == PUT_TAG {
        r := ReadPut();
      } else if tag.value == DELETE_TAG {
        r := ReadDelete();
      } else {
        return Err;
      }
    }

    method ReadHeader() returns (r: Result<(u64, u32)>)
      requires Valid()
      modifies this
      ensures Valid()
      ensures r.Ok? <==> DecodeHeader(old(Rest())).Ok?
      ensures r.Ok? ==> DecodeHeader(old(Rest())) == Ok((r.value, Rest()))
    {
      var version := ReadByte();
      if version.Err? || version.value != FORMAT { return Err; }
      var sequence := ReadU64();
      if sequence.Err? { return Err; }
      var count := ReadU32();
      if count.Err? || count.value == 0 { return Err; }
      return Ok((sequence.value, count.value));
    }

    /** Reads `n` operations in order. */
    method ReadOps(n: nat) returns (r: Result<Batch>)
      requires Valid()
      modifies this
      ensures Valid()
      ensures r.Ok? <==> TakeMany(DecodeOp, old(Rest()), n).Ok?
      ensures r.Ok? ==> TakeMany(DecodeOp, old(Rest()), n) == Ok((r.value, Rest()))
    {
      var ops: Batch := [];
      ghost var goal := TakeMany(DecodeOp, Rest(), n);
      ReadingStarts(DecodeOp, Rest(), n);
      for i := 0 to n
        invariant Valid() && (ops, Rest(), n - i) in Readings(DecodeOp, goal)
      {
        ReadingStep(DecodeOp, goal, ops, Rest(), n - i);
        var op := ReadOp();
        if op.Err? {
          return Err;
        }
        ops := ops + [op.value];
      }
      ReadingEnds(DecodeOp, goal, ops, Rest());
      return Ok(ops);
    }
  }

  lemma Assembled(s: bytes, header: (u64, u32), s1: bytes, r: Parsed<Batch>)
    requires DecodeHeader(s) == Ok((header, s1)) && TakeMany(DecodeOp, s1, header.1) == r
    ensures r.Err? ==> DecodeBatch(s) == Err
    ensures r.Ok? ==> DecodeBatch(s) == if r.value.1 != [] then Err else Ok((header.0, r.value.0))
  {
  }

  method Decoded(s: bytes) returns (r: Result<(u64, Batch)>)
    ensures r == DecodeBatch(s)
  {
    var decoder := new BatchDecoder(s);
    var header := decoder.ReadHeader();
    if header.Err? {
      return Err;
    }
    ghost var s1 := decoder.Rest();
    ghost var parsed := TakeMany(DecodeOp, s1, header.value.1);
    Assembled(s, header.value, s1, parsed);
    r := FinishBatch(decoder, header.value, parsed);
  }

  method FinishBatch(decoder: BatchDecoder, header: (u64, u32), ghost parsed: Parsed<Batch>)
      returns (r: Result<(u64, Batch)>)
    requires decoder.Valid() && parsed == TakeMany(DecodeOp, decoder.Rest(), header.1)
    modifies decoder
    ensures parsed.Err? ==> r == Err
    ensures parsed.Ok? ==> r == if parsed.value.1 != [] then Err else Ok((header.0, parsed.value.0))
  {
    var ops := decoder.ReadOps(header.1);
    if ops.Err? || decoder.position != |decoder.encoded| {
      return Err;
    }
    return Ok((header.0, ops.value));
  }
}
