/** From torn bytes to torn record lists: whatever bytes of the unsynced tail survive, recovery reads a list of records
    that the crash semantics of record files allows. */
module Tears {
  import opened Bytes
  import opened Framing
  import opened RecordLogs
  import opened Versions
  import opened EditCodecs
  import opened Logs
  import opened Fs

  lemma FilePrefix<T>(crc: Checksum, encode: T --> bytes, xs: seq<T>, k: nat)
    requires k <= |xs| && forall x | x in xs :: encode.requires(x)
    ensures forall x | x in xs[..k] :: encode.requires(x)
    ensures |FileOf(crc, encode, xs[..k])| <= |FileOf(crc, encode, xs)|
  {
    EncodeEachPrefix(encode, xs, k);
    LogSplit(FramerOf(crc), 0, EncodeEach(encode, xs), k);
  }

  lemma PrefixPrefix<T>(crc: Checksum, encode: T --> bytes, xs: seq<T>, j: nat, k: nat)
    requires j <= k <= |xs| && forall x | x in xs :: encode.requires(x)
    ensures |FileOf(crc, encode, xs[..j])| <= |FileOf(crc, encode, xs[..k])|
  {
    FilePrefix(crc, encode, xs[..k], j);
    DropDrop(xs, j, k);
  }

  /** A cut at or above the durable bytes keeps every durable record. */
  lemma CutKeepsDurable<T>(crc: Checksum, encode: T --> bytes, xs: seq<T>, n: nat, c: nat, k: nat)
    requires n <= |xs| && forall x | x in xs :: encode.requires(x)
    requires CutsAfter(crc, encode, xs, c, k) && |FileOf(crc, encode, xs[..n])| <= c
    ensures n <= k
  {
    if k < n {
      PrefixPrefix(crc, encode, xs, k + 1, n);
    }
  }

  lemma PrefixSurvives<P, T>(i: Image<P, T>, p: P, k: nat)
    requires p in i.durable && p in i.volatile && i.durable[p] <= i.volatile[p]
    requires |i.durable[p]| <= k <= |i.volatile[p]|
    ensures MaySurvive(i, p, i.volatile[p][..k])
  {
  }

  /** A write-ahead log torn at any byte of its unsynced tail replays to a content that may survive, and the next
      record written after it extends exactly that content. */
  lemma WalTear<P>(crc: Checksum, maxBatch: nat, i: Image<P, Logged>, p: P, c: nat, y: Logged) returns (k: nat)
    requires p in i.durable && p in i.volatile && i.durable[p] <= i.volatile[p]
    requires AllAppendable(maxBatch, i.volatile[p]) && Appendable(maxBatch, y.1)
    requires |FileOf(crc, EncodeLogged, i.durable[p])| <= c <= |FileOf(crc, EncodeLogged, i.volatile[p])|
    ensures k <= |i.volatile[p]| && MaySurvive(i, p, i.volatile[p][..k])
    ensures var file := FileOf(crc, EncodeLogged, i.volatile[p]);
            Resumable(crc, EncodeLogged, file, c,
                      ReplayFile(crc, LoggedDecoder(maxBatch), RecordLimit(maxBatch), file[..c]), i.volatile[p][..k], y)
  {
    var log := i.volatile[p];
    k := WalTornTail(crc, maxBatch, log, c, y);
    assert log[..|i.durable[p]|] == i.durable[p];
    CutKeepsDurable(crc, EncodeLogged, log, |i.durable[p]|, c, k);
    PrefixSurvives(i, p, k);
  }

  /** The same for a manifest, which recovery then truncates and extends. */
  lemma ManifestTear<P>(crc: Checksum, i: Image<P, VersionEdit>, p: P, c: nat, e: VersionEdit) returns (k: nat)
    requires p in i.durable && p in i.volatile && i.durable[p] <= i.volatile[p]
    requires AllWritable(i.durable[p]) && AllWritable(i.volatile[p]) && EditWritable(e)
    requires |FileOf(crc, EncodeEdit, i.durable[p])| <= c <= |FileOf(crc, EncodeEdit, i.volatile[p])|
    ensures k <= |i.volatile[p]| && MaySurvive(i, p, i.volatile[p][..k])
    ensures var file := FileOf(crc, EncodeEdit, i.volatile[p]);
            Resumable(crc, EncodeEdit, file, c, ReplayFile(crc, DecodeEdit, MAX_EDIT_BYTES, file[..c]),
                      i.volatile[p][..k], e)
  {
    var edits := i.volatile[p];
    k := ManifestTornTail(crc, edits, c, e);
    assert edits[..|i.durable[p]|] == i.durable[p];
    CutKeepsDurable(crc, EncodeEdit, edits, |i.durable[p]|, c, k);
    PrefixSurvives(i, p, k);
  }
}
