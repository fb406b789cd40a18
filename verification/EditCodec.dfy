/** The logical record of a version edit. */
module EditCodecs {
  import opened Bytes
  import opened Codecs
  import opened InternalKeys
  import opened Versions

  const FORMAT: byte := 2
  const LEGACY_FORMAT: byte := 1
  const MAX_EDIT_BYTES := 0x400_0000

  // ----- Format -----

  type Removal = (nat, u64)
  type Addition = (nat, FileMeta)

  predicate RemovalEncodable(d: Removal) {
    d.0 < NUM_LEVELS
  }

  /** Valid metadata at a real level, with keys that fit 32-bit lengths. */
  predicate AdditionEncodable(a: Addition) {
    && a.0 < NUM_LEVELS && ValidFile(a.1)
    && ValidSequence(a.1.smallest.seqno) && ValidSequence(a.1.largest.seqno)
    && |Encode(a.1.smallest)| < U32_END && |Encode(a.1.largest)| < U32_END
  }

  predicate EditEncodable(e: VersionEdit) {
    && |e.deleted| < U32_END && |e.added| < U32_END
    && (forall d | d in e.deleted :: RemovalEncodable(d))
    && (forall a | a in e.added :: AdditionEncodable(a))
  }

  function Sized(s: bytes): bytes
    requires |s| < U32_END
  {
    U32(|s|) + s
  }

  function EncodeRemoval(d: Removal): bytes
    requires RemovalEncodable(d)
  {
    U32(d.0) + U64(d.1)
  }

  function EncodeAddition(a: Addition): bytes
    requires AdditionEncodable(a)
  {
    (U32(a.0) + (U64(a.1.number) + U64(a.1.fileSize))) + (Sized(Encode(a.1.smallest)) + Sized(Encode(a.1.largest)))
  }

  function EncodeFiles(e: VersionEdit): bytes
    requires EditEncodable(e)
  {
    U32(|e.deleted|) + (EncodeMany(EncodeRemoval, e.deleted) + (U32(|e.added|) + EncodeMany(EncodeAddition, e.added)))
  }

  function EncodeEdit(e: VersionEdit): bytes
    requires EditEncodable(e)
  {
    [FORMAT] + (OptU64(e.nextFile) + (OptU64(e.lastSequence) +
      (OptU64(e.logNumber) + (OptU64(e.activeLog) + (OptU64(e.walSequence) + EncodeFiles(e))))))
  }

  function TakeLevel(s: bytes): Parsed<nat> {
    match TakeU32(s)
    case Err => Err
    case Ok((level, rest)) => if level >= NUM_LEVELS then Err else Ok((level, rest))
  }

  function TakeKey(s: bytes): Parsed<InternalKey> {
    match TakeU32(s)
    case Err => Err
    case Ok((length, s1)) =>
      match Take(s1, length)
      case Err => Err
      case Ok((encoded, rest)) =>
        match Decode(encoded)
        case Err => Err
        case Ok(key) => Ok((key, rest))
  }

  function TakeRemoval(s: bytes): Parsed<Removal> {
    match TakeLevel(s)
    case Err => Err
    case Ok((level, s1)) =>
      match TakeU64(s1)
      case Err => Err
      case Ok((number, rest)) => Ok(((level, number), rest))
  }

  function TakeNumbers(s: bytes): Parsed<(nat, u64, u64)> {
    match TakeLevel(s)
    case Err => Err
    case Ok((level, s1)) =>
      match TakeU64(s1)
      case Err => Err
      case Ok((number, s2)) =>
        match TakeU64(s2)
        case Err => Err
        case Ok((size, rest)) => Ok(((level, number, size), rest))
  }

  function TakeKeys(s: bytes): Parsed<(InternalKey, InternalKey)> {
    match TakeKey(s)
    case Err => Err
    case Ok((smallest, s1)) =>
      match TakeKey(s1)
      case Err => Err
      case Ok((largest, rest)) => Ok(((smallest, largest), rest))
  }

  function TakeAddition(s: bytes): Parsed<Addition> {
    match TakeNumbers(s)
    case Err => Err
    case Ok((n, s1)) =>
      match TakeKeys(s1)
      case Err => Err
      case Ok((k, rest)) =>
        var f := FileMeta(n.1, n.2, k.0, k.1);
        if ValidFile(f) then Ok(((n.0, f), rest)) else Err
  }

  function TakeFiles(s: bytes): Parsed<(seq<Removal>, seq<Addition>)> {
    match TakeU32(s)
    case Err => Err
    case Ok((deletions, s1)) =>
      match TakeMany(TakeRemoval, s1, deletions)
      case Err => Err
      case Ok((deleted, s2)) =>
        match TakeU32(s2)
        case Err => Err
        case Ok((additions, s3)) =>
          match TakeMany(TakeAddition, s3, additions)
          case Err => Err
          case Ok((added, rest)) => Ok(((deleted, added), rest))
  }

  /** The three log counters, absent from the older format. */
  function TakeLogs(s: bytes, version: byte): Parsed<(Option<u64>, Option<u64>, Option<u64>)> {
    if version == LEGACY_FORMAT then Ok(((None, None, None), s)) else
      match TakeOptU64(s)
      case Err => Err
      case Ok((log, s1)) =>
        match TakeOptU64(s1)
        case Err => Err
        case Ok((active, s2)) =>
          match TakeOptU64(s2)
          case Err => Err
          case Ok((wal, rest)) => Ok(((log, active, wal), rest))
  }

  function DecodeEdit(s: bytes): Result<VersionEdit> {
    if |s| > MAX_EDIT_BYTES then Err else
      match TakeByte(s)
      case Err => Err
      case Ok((version, s1)) =>
        if version != LEGACY_FORMAT && version != FORMAT then Err else
          match TakeOptU64(s1)
          case Err => Err
          case Ok((next, s2)) =>
            match TakeOptU64(s2)
            case Err => Err
            case Ok((last, s3)) =>
              match TakeLogs(s3, version)
              case Err => Err
              case Ok((logs, s4)) =>
                match TakeFiles(s4)
                case Err => Err
                case Ok((files, rest)) =>
                  if rest != [] then Err
                  else Ok(VersionEdit(files.1, files.0, next, last, logs.0, logs.1, logs.2))
  }

  // ----- Round trips -----

  lemma TakeKeyOf(k: InternalKey, rest: bytes)
    requires ValidSequence(k.seqno) && |Encode(k)| < U32_END
    ensures TakeKey(Sized(Encode(k)) + rest) == Ok((k, rest))
  {
    var s := Encode(k);
    ConcatAssociative(U32(|s|), s, rest);
    TakeU32Of(|s|, s + rest);
    TakeOf(s, rest);
    DecodeEncode(k);
  }

  lemma TakeRemovalOf(d: Removal, rest: bytes)
    requires RemovalEncodable(d)
    ensures TakeRemoval(EncodeRemoval(d) + rest) == Ok((d, rest))
  {
    ConcatAssociative(U32(d.0), U64(d.1), rest);
    TakeU32Of(d.0, U64(d.1) + rest);
    TakeU64Of(d.1, rest);
  }

  lemma TakeNumbersOf(level: nat, number: u64, size: u64, rest: bytes)
    requires level < NUM_LEVELS
    ensures TakeNumbers((U32(level) + (U64(number) + U64(size))) + rest) == Ok(((level, number, size), rest))
  {
    ConcatAssociative(U32(level), U64(number) + U64(size), rest);
    ConcatAssociative(U64(number), U64(size), rest);
    TakeU32Of(level, U64(number) + (U64(size) + rest));
    TakeU64Of(number, U64(size) + rest);
    TakeU64Of(size, rest);
  }

  lemma TakeKeysOf(a: InternalKey, b: InternalKey, rest: bytes)
    requires ValidSequence(a.seqno) && ValidSequence(b.seqno) && |Encode(a)| < U32_END && |Encode(b)| < U32_END
    ensures TakeKeys((Sized(Encode(a)) + Sized(Encode(b))) + rest) == Ok(((a, b), rest))
  {
    ConcatAssociative(Sized(Encode(a)), Sized(Encode(b)), rest);
    TakeKeyOf(a, Sized(Encode(b)) + rest);
    TakeKeyOf(b, rest);
  }

  lemma TakeAdditionOf(a: Addition, rest: bytes)
    requires AdditionEncodable(a)
    ensures TakeAddition(EncodeAddition(a) + rest) == Ok((a, rest))
  {
    var n := U32(a.0) + (U64(a.1.number) + U64(a.1.fileSize));
    var k := Sized(Encode(a.1.smallest)) + Sized(Encode(a.1.largest));
    ConcatAssociative(n, k, rest);
    TakeNumbersOf(a.0, a.1.number, a.1.fileSize, k + rest);
    TakeKeysOf(a.1.smallest, a.1.largest, rest);
  }

  lemma TakeRemovalsOf(ds: seq<Removal>, rest: bytes)
    requires forall d | d in ds :: RemovalEncodable(d)
    ensures TakeMany(TakeRemoval, EncodeMany(EncodeRemoval, ds) + rest, |ds|) == Ok((ds, rest))
  {
    forall d, r: bytes | d in ds ensures TakeRemoval(EncodeRemoval(d) + r) == Ok((d, r)) {
      TakeRemovalOf(d, r);
    }
    TakeManyOf(TakeRemoval, EncodeRemoval, ds, rest);
  }

  lemma TakeAdditionsOf(xs: seq<Addition>, rest: bytes)
    requires forall a | a in xs :: AdditionEncodable(a)
    ensures TakeMany(TakeAddition, EncodeMany(EncodeAddition, xs) + rest, |xs|) == Ok((xs, rest))
  {
    forall a, r: bytes | a in xs ensures TakeAddition(EncodeAddition(a) + r) == Ok((a, r)) {
      TakeAdditionOf(a, r);
    }
    TakeManyOf(TakeAddition, EncodeAddition, xs, rest);
  }

  lemma TakeFilesOf(e: VersionEdit)
    requires EditEncodable(e)
    ensures TakeFiles(EncodeFiles(e)) == Ok(((e.deleted, e.added), []))
  {
    var tail := U32(|e.added|) + EncodeMany(EncodeAddition, e.added);
    TakeU32Of(|e.deleted|, EncodeMany(EncodeRemoval, e.deleted) + tail);
    TakeRemovalsOf(e.deleted, tail);
    TakeU32Of(|e.added|, EncodeMany(EncodeAddition, e.added));
    TakeAdditionsOf(e.added, []);
    assert EncodeMany(EncodeAddition, e.added) + [] == EncodeMany(EncodeAddition, e.added);
  }

  /** Decoding inverts encoding for every edit that fits the size limit. */
  lemma DecodeEncodeEdit(e: VersionEdit)
    requires EditEncodable(e) && |EncodeEdit(e)| <= MAX_EDIT_BYTES
    ensures DecodeEdit(EncodeEdit(e)) == Ok(e)
  {
    var files := EncodeFiles(e);
    var s5 := OptU64(e.walSequence) + files;
    var s4 := OptU64(e.activeLog) + s5;
    var s3 := OptU64(e.logNumber) + s4;
    var s2 := OptU64(e.lastSequence) + s3;
    TakeByteOf(FORMAT, OptU64(e.nextFile) + s2);
    TakeOptU64Of(e.nextFile, s2);
    TakeOptU64Of(e.lastSequence, s3);
    TakeOptU64Of(e.logNumber, s4);
    TakeOptU64Of(e.activeLog, s5);
    TakeOptU64Of(e.walSequence, files);
    TakeFilesOf(e);
  }

  // ----- Accepted input is canonical -----

  lemma TakeKeyIs(s: bytes)
    requires TakeKey(s).Ok?
    ensures var (k, rest) := TakeKey(s).value;
            ValidSequence(k.seqno) && |Encode(k)| < U32_END && s == Sized(Encode(k)) + rest
  {
    TakeU32Is(s);
    var (length, s1) := TakeU32(s).value;
    TakeIs(s1, length);
    var (encoded, rest) := Take(s1, length).value;
    EncodeDecode(encoded);
    ConcatAssociative(U32(length), encoded, rest);
  }

  lemma TakeRemovalIs(s: bytes)
    requires TakeRemoval(s).Ok?
    ensures var (d, rest) := TakeRemoval(s).value; RemovalEncodable(d) && s == EncodeRemoval(d) + rest
  {
    TakeU32Is(s);
    var (level, s1) := TakeU32(s).value;
    TakeU64Is(s1);
    var (number, rest) := TakeU64(s1).value;
    ConcatAssociative(U32(level), U64(number), rest);
  }

  lemma TakeNumbersIs(s: bytes)
    requires TakeNumbers(s).Ok?
    ensures var ((level, number, size), rest) := TakeNumbers(s).value;
            level < NUM_LEVELS && s == (U32(level) + (U64(number) + U64(size))) + rest
  {
    TakeU32Is(s);
    var (level, s1) := TakeU32(s).value;
    TakeU64Is(s1);
    var (number, s2) := TakeU64(s1).value;
    TakeU64Is(s2);
    var (size, rest) := TakeU64(s2).value;
    ConcatAssociative(U64(number), U64(size), rest);
    ConcatAssociative(U32(level), U64(number) + U64(size), rest);
  }

  lemma TakeKeysIs(s: bytes)
    requires TakeKeys(s).Ok?
    ensures var ((a, b), rest) := TakeKeys(s).value;
            && ValidSequence(a.seqno) && ValidSequence(b.seqno) && |Encode(a)| < U32_END && |Encode(b)| < U32_END
            && s == (Sized(Encode(a)) + Sized(Encode(b))) + rest
  {
    TakeKeyIs(s);
    var (a, s1) := TakeKey(s).value;
    TakeKeyIs(s1);
    var (b, rest) := TakeKey(s1).value;
    ConcatAssociative(Sized(Encode(a)), Sized(Encode(b)), rest);
  }

  lemma TakeAdditionIs(s: bytes)
    requires TakeAddition(s).Ok?
    ensures var (a, rest) := TakeAddition(s).value; AdditionEncodable(a) && s == EncodeAddition(a) + rest
  {
    TakeNumbersIs(s);
    var (n, s1) := TakeNumbers(s).value;
    TakeKeysIs(s1);
    var (k, rest) := TakeKeys(s1).value;
    ConcatAssociative(U32(n.0) + (U64(n.1) + U64(n.2)), Sized(Encode(k.0)) + Sized(Encode(k.1)), rest);
  }

  lemma TakeFilesIs(s: bytes)
    requires TakeFiles(s).Ok?
    ensures var ((deleted, added), rest) := TakeFiles(s).value;
            && |deleted| < U32_END && |added| < U32_END
            && (forall d | d in deleted :: RemovalEncodable(d)) && (forall a | a in added :: AdditionEncodable(a))
            && s == U32(|deleted|) + (EncodeMany(EncodeRemoval, deleted)
                                      + (U32(|added|) + (EncodeMany(EncodeAddition, added) + rest)))
  {
    TakeU32Is(s);
    var (m, s1) := TakeU32(s).value;
    forall t: bytes | TakeRemoval(t).Ok?
      ensures RemovalEncodable(TakeRemoval(t).value.0)
      ensures t == EncodeRemoval(TakeRemoval(t).value.0) + TakeRemoval(t).value.1
    {
      TakeRemovalIs(t);
    }
    TakeManyIs(TakeRemoval, EncodeRemoval, s1, m);
    var (deleted, s2) := TakeMany(TakeRemoval, s1, m).value;
    TakeU32Is(s2);
    var (n, s3) := TakeU32(s2).value;
    forall t: bytes | TakeAddition(t).Ok?
      ensures AdditionEncodable(TakeAddition(t).value.0)
      ensures t == EncodeAddition(TakeAddition(t).value.0) + TakeAddition(t).value.1
    {
      TakeAdditionIs(t);
    }
    TakeManyIs(TakeAddition, EncodeAddition, s3, n);
  }

  /** Every accepted record of the current format is the encoding of the edit it decodes to, and the edit's files are
      valid. */
  lemma EncodeDecodeEdit(s: bytes)
    requires DecodeEdit(s).Ok? && s[0] == FORMAT
    ensures EditEncodable(DecodeEdit(s).value) && EncodeEdit(DecodeEdit(s).value) == s
  {
    TakeByteIs(s);
    var (_, s1) := TakeByte(s).value;
    TakeOptU64Is(s1);
    var (next, s2) := TakeOptU64(s1).value;
    TakeOptU64Is(s2);
    var (last, s3) := TakeOptU64(s2).value;
    TakeOptU64Is(s3);
    var (log, s4) := TakeOptU64(s3).value;
    TakeOptU64Is(s4);
    var (active, s5) := TakeOptU64(s4).value;
    TakeOptU64Is(s5);
    var (wal, s6) := TakeOptU64(s5).value;
    TakeFilesIs(s6);
    var (files, rest) := TakeFiles(s6).value;
    assert EncodeMany(EncodeAddition, files.1) + [] == EncodeMany(EncodeAddition, files.1);
  }
}
