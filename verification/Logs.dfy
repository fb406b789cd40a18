/** The write-ahead log and the manifest as framed logs of encoded records. */
module Logs {
  import opened Bytes
  import opened Framing
  import opened RecordLogs
  import opened MemTables
  import opened Versions
  import opened BatchCodecs
  import opened EditCodecs

  // ----- Decoding every record -----

  function DecodeEach<T>(decode: bytes -> Result<T>, rs: seq<bytes>): Result<seq<T>> {
    if rs == [] then Ok([]) else
      match decode(rs[0])
      case Err => Err
      case Ok(x) =>
        match DecodeEach(decode, rs[1..])
        case Err => Err
        case Ok(xs) => Ok([x] + xs)
  }

  function EncodeEach<T>(encode: T --> bytes, xs: seq<T>): (rs: seq<bytes>)
    requires forall x | x in xs :: encode.requires(x)
    ensures |rs| == |xs|
    ensures forall i | 0 <= i < |xs| :: rs[i] == encode(xs[i])
  {
    if xs == [] then [] else [encode(xs[0])] + EncodeEach(encode, xs[1..])
  }

  lemma {:induction false} DecodeEachOf<T(!new)>(decode: bytes -> Result<T>, encode: T --> bytes, xs: seq<T>)
    requires forall x | x in xs :: encode.requires(x) && decode(encode(x)) == Ok(x)
    ensures DecodeEach(decode, EncodeEach(encode, xs)) == Ok(xs)
  {
    if xs != [] {
      DecodeEachOf(decode, encode, xs[1..]);
      assert EncodeEach(encode, xs)[1..] == EncodeEach(encode, xs[1..]);
      assert xs == [xs[0]] + xs[1..];
    }
  }

  lemma EncodeEachPrefix<T>(encode: T --> bytes, xs: seq<T>, k: nat)
    requires k <= |xs| && forall x | x in xs :: encode.requires(x)
    ensures forall x | x in xs[..k] :: encode.requires(x)
    ensures EncodeEach(encode, xs)[..k] == EncodeEach(encode, xs[..k])
  {
    var a, b := EncodeEach(encode, xs)[..k], EncodeEach(encode, xs[..k]);
    assert forall i | 0 <= i < k :: a[i] == b[i];
  }

  lemma EncodeEachSnoc<T>(encode: T --> bytes, xs: seq<T>, y: T)
    requires (forall x | x in xs :: encode.requires(x)) && encode.requires(y)
    ensures EncodeEach(encode, xs + [y]) == EncodeEach(encode, xs) + [encode(y)]
  {
    var a, b := EncodeEach(encode, xs + [y]), EncodeEach(encode, xs) + [encode(y)];
    assert forall i | 0 <= i < |a| :: a[i] == b[i];
  }

  /** Encodings are nonempty, within the limit and decode back. */
  ghost predicate Codes<T(!new)>(encode: T --> bytes, decode: bytes -> Result<T>, limit: nat, x: T) {
    encode.requires(x) && 0 < |encode(x)| <= limit && decode(encode(x)) == Ok(x)
  }

  function FileOf<T>(crc: Checksum, encode: T --> bytes, xs: seq<T>): bytes
    requires forall x | x in xs :: encode.requires(x)
  {
    Log(crc, EncodeEach(encode, xs))
  }

  /** Replays and decodes a file, with the length at which it may be cut and extended. */
  function ReplayFile<T>(crc: Checksum, decode: bytes -> Result<T>, limit: nat, file: bytes): Result<(seq<T>, nat)> {
    match Replay(ReaderOf(crc), limit, file, START)
    case Err => Err
    case Ok(st) =>
      match DecodeEach(decode, st.records)
      case Err => Err
      case Ok(xs) => Ok((xs, ValidBytes(st)))
  }

  /** Exactly the first `k` values end at or before the cut. */
  ghost predicate CutsAfter<T>(crc: Checksum, encode: T --> bytes, xs: seq<T>, c: nat, k: nat)
    requires forall x | x in xs :: encode.requires(x)
  {
    k <= |xs| && |FileOf(crc, encode, xs[..k])| <= c && (k < |xs| ==> c < |FileOf(crc, encode, xs[..k + 1])|)
  }

  /** The replay returns these values, and appending any other at the reported length extends exactly them. */
  ghost predicate Resumable<T(!new)>(crc: Checksum, encode: T --> bytes, file: bytes, c: nat,
                                     r: Result<(seq<T>, nat)>, xs: seq<T>, y: T)
    requires (forall x | x in xs :: encode.requires(x)) && encode.requires(y) && c <= |file|
  {
    && r.Ok? && r.value.0 == xs && r.value.1 <= c
    && file[..r.value.1] + FramerOf(crc)(r.value.1, encode(y)) == FileOf(crc, encode, xs + [y])
  }

  lemma TypedCut<T>(crc: Checksum, encode: T --> bytes, xs: seq<T>, c: nat, k: nat)
    requires (forall x | x in xs :: encode.requires(x)) && k <= |xs|
    requires var rs := EncodeEach(encode, xs); |Log(crc, rs[..k])| <= c && (k < |rs| ==> c < |Log(crc, rs[..k + 1])|)
    ensures CutsAfter(crc, encode, xs, c, k)
  {
    EncodeEachPrefix(encode, xs, k);
    if k < |xs| {
      EncodeEachPrefix(encode, xs, k + 1);
    }
  }

  lemma TypedReplay<T(!new)>(crc: Checksum, encode: T --> bytes, decode: bytes -> Result<T>, file: bytes, c: nat,
                             st: State, rs: seq<bytes>, xs: seq<T>, y: T)
    requires forall x | x in xs :: encode.requires(x) && decode(encode(x)) == Ok(x)
    requires encode.requires(y) && c <= |file|
    requires rs == EncodeEach(encode, xs) && st.records == rs && ValidBytes(st) <= c
    requires file[..ValidBytes(st)] + FramerOf(crc)(ValidBytes(st), encode(y)) == Log(crc, rs + [encode(y)])
    ensures DecodeEach(decode, st.records) == Ok(xs)
    ensures Resumable(crc, encode, file, c, Ok((xs, ValidBytes(st))), xs, y)
  {
    EncodeEachSnoc(encode, xs, y);
    DecodeEachOf(decode, encode, xs);
  }

  /** Any cut of a file of encoded values replays to exactly the values that end at or before it, and can be
      extended. */
  lemma TornFile<T(!new)>(crc: Checksum, encode: T --> bytes, decode: bytes -> Result<T>, limit: nat,
                          xs: seq<T>, c: nat, y: T) returns (k: nat)
    requires (forall x | x in xs :: encode.requires(x)) && encode.requires(y)
    requires (forall x | x in xs :: Codes(encode, decode, limit, x)) && Codes(encode, decode, limit, y)
    requires c <= |FileOf(crc, encode, xs)|
    ensures CutsAfter(crc, encode, xs, c, k)
    ensures var file := FileOf(crc, encode, xs);
            Resumable(crc, encode, file, c, ReplayFile(crc, decode, limit, file[..c]), xs[..k], y)
  {
    var rs := EncodeEach(encode, xs);
    forall r | r in rs ensures 0 < |r| <= limit {
      var i :| 0 <= i < |rs| && rs[i] == r;
      assert Codes(encode, decode, limit, xs[i]);
    }
    k := TornLog(crc, limit, rs, c, encode(y));
    TypedCut(crc, encode, xs, c, k);
    EncodeEachPrefix(encode, xs, k);
    forall x | x in xs[..k] ensures decode(encode(x)) == Ok(x) {
      assert Codes(encode, decode, limit, x);
    }
    var st := Replay(ReaderOf(crc), limit, Log(crc, rs)[..c], START).value;
    TypedReplay(crc, encode, decode, Log(crc, rs), c, st, rs[..k], xs[..k], y);
  }

  // ----- The write-ahead log -----

  const HEADER_BYTES := 13
  const OVERHEAD_BYTES := 18

  /** The largest record a log with this payload limit writes or accepts. */
  function RecordLimit(maxBatch: nat): nat {
    maxBatch * OVERHEAD_BYTES + maxBatch + HEADER_BYTES
  }

  function OpPayload(op: WriteOp): nat {
    |op.key| + if op.Put? then |op.value| else 0
  }

  function Payload(batch: Batch): nat {
    if batch == [] then 0 else OpPayload(batch[0]) + Payload(batch[1..])
  }

  /** Bytes an operation takes beside its key and value. */
  function OpOverhead(op: WriteOp): nat {
    match op
    case Put(_, _, expires) => if expires.Some? then 18 else 10
    case Delete(_) => 5
  }

  function Overhead(batch: Batch): nat {
    if batch == [] then 0 else OpOverhead(batch[0]) + Overhead(batch[1..])
  }

  lemma {:induction false} OpsLength(ops: Batch)
    requires forall op | op in ops :: Encodable(op)
    ensures |EncodeOps(ops)| == Payload(ops) + Overhead(ops)
  {
    if ops != [] {
      OpsLength(ops[1..]);
      assert |EncodeOp(ops[0])| == OpPayload(ops[0]) + OpOverhead(ops[0]);
    }
  }

  /** What the log accepts for appending. */
  predicate Appendable(maxBatch: nat, batch: Batch) {
    && batch != [] && Payload(batch) <= maxBatch && BatchEncodable(batch)
    && |EncodeBatch(0, batch)| <= RecordLimit(maxBatch)
  }

  /** A batch within the payload limit is refused exactly when its per-operation overhead exceeds what the limit
      reserves. */
  lemma AppendableIff(maxBatch: nat, batch: Batch)
    requires batch != [] && BatchEncodable(batch) && Payload(batch) <= maxBatch
    ensures Appendable(maxBatch, batch) <==> Payload(batch) + Overhead(batch) <= 19 * maxBatch
  {
    OpsLength(batch);
    assert |EncodeBatch(0, batch)| == HEADER_BYTES + Payload(batch) + Overhead(batch);
  }

  /** Four deletions of the empty key stay within a one-byte payload limit, but their record does not fit. */
  lemma ManyEmptyOperations()
    ensures var batch := [Delete([]), Delete([]), Delete([]), Delete([])];
            BatchEncodable(batch) && Payload(batch) <= 1 && !Appendable(1, batch)
  {
    var batch := [Delete([]), Delete([]), Delete([]), Delete([])];
    assert batch[1..] == [Delete([]), Delete([]), Delete([])] && batch[1..][1..] == [Delete([]), Delete([])];
    assert batch[1..][1..][1..] == [Delete([])] && batch[1..][1..][1..][1..] == [];
    assert Payload(batch) == 0 && Overhead(batch) == 20;
    AppendableIff(1, batch);
  }

  /** One nonempty key or value byte per operation is enough. */
  lemma {:induction false} NonemptyOperations(batch: Batch)
    requires forall op | op in batch :: OpPayload(op) > 0
    ensures Overhead(batch) <= 18 * Payload(batch)
  {
    if batch != [] {
      assert batch[0] in batch;
      NonemptyOperations(batch[1..]);
    }
  }

  type Logged = (u64, Batch)

  function EncodeLogged(x: Logged): bytes
    requires BatchEncodable(x.1)
  {
    EncodeBatch(x.0, x.1)
  }

  /** Decodes one record of a log with this payload limit. */
  function DecodeLogged(maxBatch: nat, s: bytes): Result<Logged> {
    if |s| > RecordLimit(maxBatch) then Err else
      match DecodeBatch(s)
      case Err => Err
      case Ok(x) => if Payload(x.1) > maxBatch then Err else Ok(x)
  }

  predicate AllAppendable(maxBatch: nat, log: seq<Logged>) {
    forall x | x in log :: Appendable(maxBatch, x.1)
  }

  lemma DecodeLoggedOf(maxBatch: nat, x: Logged)
    requires Appendable(maxBatch, x.1)
    ensures DecodeLogged(maxBatch, EncodeLogged(x)) == Ok(x) && 0 < |EncodeLogged(x)| <= RecordLimit(maxBatch)
  {
    BatchCodecs.DecodeEncode(x.0, x.1);
    assert |EncodeBatch(x.0, x.1)| == |EncodeBatch(0, x.1)|;
  }

  function LoggedDecoder(maxBatch: nat): bytes -> Result<Logged> {
    s => DecodeLogged(maxBatch, s)
  }

  /** A torn log: replaying any cut of the file succeeds and returns exactly the batches that end at or before the
      cut. */
  lemma WalTornTail(crc: Checksum, maxBatch: nat, log: seq<Logged>, c: nat, y: Logged) returns (k: nat)
    requires AllAppendable(maxBatch, log) && Appendable(maxBatch, y.1) && c <= |FileOf(crc, EncodeLogged, log)|
    ensures CutsAfter(crc, EncodeLogged, log, c, k)
    ensures var file := FileOf(crc, EncodeLogged, log);
            Resumable(crc, EncodeLogged, file, c,
                      ReplayFile(crc, LoggedDecoder(maxBatch), RecordLimit(maxBatch), file[..c]), log[..k], y)
  {
    var decode, limit := LoggedDecoder(maxBatch), RecordLimit(maxBatch);
    forall x | x in log + [y] ensures Codes(EncodeLogged, decode, limit, x) {
      DecodeLoggedOf(maxBatch, x);
    }
    assert y in log + [y];
    k := TornFile(crc, EncodeLogged, decode, limit, log, c, y);
  }

  // ----- The manifest -----

  predicate EditWritable(e: VersionEdit) {
    EditEncodable(e) && |EncodeEdit(e)| <= MAX_EDIT_BYTES
  }

  predicate AllWritable(edits: seq<VersionEdit>) {
    forall e | e in edits :: EditWritable(e)
  }

  /** The manifest resumes after any tear: replay returns the longest prefix of whole edits, and cutting at the reported
      length and appending any edit gives exactly the manifest of that prefix and the new edit. */
  lemma ManifestTornTail(crc: Checksum, edits: seq<VersionEdit>, c: nat, e: VersionEdit) returns (k: nat)
    requires AllWritable(edits) && EditWritable(e) && c <= |FileOf(crc, EncodeEdit, edits)|
    ensures CutsAfter(crc, EncodeEdit, edits, c, k)
    ensures var file := FileOf(crc, EncodeEdit, edits);
            Resumable(crc, EncodeEdit, file, c, ReplayFile(crc, DecodeEdit, MAX_EDIT_BYTES, file[..c]), edits[..k], e)
  {
    forall x | x in edits + [e] ensures Codes(EncodeEdit, DecodeEdit, MAX_EDIT_BYTES, x) {
      EditCodes(x);
    }
    assert e in edits + [e];
    k := TornFile(crc, EncodeEdit, DecodeEdit, MAX_EDIT_BYTES, edits, c, e);
  }

  lemma EditCodes(e: VersionEdit)
    requires EditWritable(e)
    ensures Codes(EncodeEdit, DecodeEdit, MAX_EDIT_BYTES, e)
  {
    DecodeEncodeEdit(e);
  }
}
