/** The versions that batches can commit under the engine's size limits. */
module RowLimits {
  import opened Bytes
  import opened Mvcc
  import opened MemTables
  import opened Logs
  import opened Engines

  /** The options that decide how long a row and a block may be. */
  datatype Sizes = Sizes(blockBytes: u64, maxKey: u64, maxValue: u64, maxBatch: u64)

  predicate RowFits(o: Sizes, k: nat, v: nat) {
    k <= o.maxKey && v <= o.maxValue && k + v <= o.maxBatch && k < U32_END && v < U32_END
  }

  function ValueSize(e: Entry): nat {
    if e.record.Stored? then |e.record.value| else 0
  }

  /** A version that some batch can commit. */
  predicate EngineEntry(o: Sizes, e: Entry) {
    RowFits(o, |e.user|, ValueSize(e))
  }

  function SizesOf(options: Options, blockBytes: u64): Sizes
    requires options.maxKeyBytes <= U64_MAX && options.maxValueBytes <= U64_MAX && options.maxBatchBytes <= U64_MAX
  {
    Sizes(blockBytes, options.maxKeyBytes, options.maxValueBytes, options.maxBatchBytes)
  }

  /** The batch passes the limits, the log accepts it, and it commits this version. */
  predicate Commits(options: Options, batch: Batch, e: Entry) {
    Accepts(options, batch) && Appendable(options.maxBatchBytes, batch) && e in Effects(batch, e.seqno)
  }

  /** Exactly these versions come from batches that pass the limits and that the log accepts. */
  lemma EngineEntryIff(options: Options, blockBytes: u64, e: Entry)
    requires options.maxKeyBytes <= U64_MAX && options.maxValueBytes <= U64_MAX && 0 < options.maxBatchBytes <= U64_MAX
    ensures EngineEntry(SizesOf(options, blockBytes), e) <==>
            exists batch :: Commits(options, batch, e)
  {
    if EngineEntry(SizesOf(options, blockBytes), e) {
      var batch := [OpOf(e)];
      OneOperation(options.maxBatchBytes, e);
      EffectsMeaning(batch, e.seqno, e);
      assert Commits(options, batch, e);
    }
    if batch: Batch :| Commits(options, batch, e) {
      EffectsMeaning(batch, e.seqno, e);
      var i :| 0 <= i < |batch| && batch[i].key == e.user && RecordOf(batch[i]) == e.record;
      assert batch[i] in batch;
      PayloadAt(batch, i);
    }
  }

  function OpOf(e: Entry): WriteOp {
    match e.record
    case Stored(value, expires) => Put(e.user, value, expires)
    case Tombstone => Delete(e.user)
  }

  lemma OneOperation(maxBatch: nat, e: Entry)
    requires |e.user| + ValueSize(e) <= maxBatch && maxBatch > 0 && |e.user| < U32_END && ValueSize(e) < U32_END
    ensures Payload([OpOf(e)]) == |e.user| + ValueSize(e) && Appendable(maxBatch, [OpOf(e)])
  {
    var batch := [OpOf(e)];
    assert batch[1..] == [];
    AppendableIff(maxBatch, batch);
  }

  lemma {:induction false} PayloadAt(batch: Batch, i: nat)
    requires i < |batch|
    ensures OpPayload(batch[i]) <= Payload(batch)
  {
    if i > 0 {
      PayloadAt(batch[1..], i - 1);
    }
  }
}
