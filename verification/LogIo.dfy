/** The writer loop and the replay loops over a framed log. */
module LogIo {
  import opened Bytes
  import opened Framing
  import opened RecordLogs

  // ----- Writing -----

  /** The offset of a file length in its block, a full block counting as such or as none. */
  predicate Aligned(length: nat, offset: nat) {
    offset <= BLOCK && offset % BLOCK == length % BLOCK
  }

  function Padding(offset: nat): bytes
    requires offset <= BLOCK
  {
    if BLOCK - offset < HEADER then Zeros(BLOCK - offset) else []
  }

  function PaddedOffset(offset: nat): nat {
    if offset + HEADER > BLOCK then 0 else offset
  }

  class LogWriter {
    const crc: Checksum
    var file: bytes
    var blockOffset: nat

    ghost predicate Valid()
      reads this
    {
      Aligned(|file|, blockOffset)
    }

    constructor (crc: Checksum)
      ensures Valid() && file == [] && this.crc == crc
    {
      this.crc, file, blockOffset := crc, [], 0;
    }

    /** Appends to a file that was cut at a reported length. */
    constructor Resume(crc: Checksum, file: bytes)
      ensures Valid() && this.file == file && this.crc == crc
    {
      this.crc, this.file, blockOffset := crc, file, |file| % BLOCK;
    }

    /** Pads a block trailer if needed and writes one fragment of the rest of a record. */
    method AppendFragment(left: bytes, first: bool, ghost goal: bytes) returns (length: nat)
      requires Valid() && left != [] && goal in Goals(crc, file, blockOffset, left, first)
      modifies this
      ensures Valid() && length <= |left|
      ensures goal in Goals(crc, file, blockOffset, left[length..], false)
      ensures length > 0 || Rank(blockOffset) < Rank(old(blockOffset))
    {
      AimNext(crc, blockOffset, file, left, first, goal);
      OffsetStep(|file|, blockOffset, left);
      ghost var size, offset := |file|, blockOffset;
      PadTrailer();
      var available := BLOCK - blockOffset - HEADER;
      length := Least(available, |left|);
      var ty := FragmentType(first, length == |left|);
      file := file + Fragment(crc, ty, left[..length]);
      blockOffset := blockOffset + HEADER + length;
      assert |file| == size + |Padding(offset)| + HEADER + length;
    }

    method PadTrailer()
      requires blockOffset <= BLOCK
      modifies this
      ensures file == old(file) + Padding(old(blockOffset)) && blockOffset == PaddedOffset(old(blockOffset))
    {
      if BLOCK - blockOffset < HEADER {
        file := file + Zeros(BLOCK - blockOffset);
        blockOffset := 0;
      } else {
        assert file + [] == file;
      }
    }

    /** Splits a record into fragments; ends even when an empty first fragment fills the block. */
    method Append(logical: bytes)
      requires Valid()
      modifies this
      ensures Valid() && file == old(file) + FramerOf(crc)(|old(file)|, logical)
    {
      var position, first := 0, true;
      ghost var goal := file + FramerOf(crc)(|file|, logical);
      Begin(crc, file, blockOffset, logical);
      while position < |logical|
        invariant Valid() && position <= |logical|
        invariant goal in Goals(crc, file, blockOffset, logical[position..], first)
        decreases |logical| - position, Rank(blockOffset)
      {
        var length := AppendFragment(logical[position..], first, goal);
        DropDrop(logical, position, position + length);
        position, first := position + length, false;
      }
      Finish(crc, file, blockOffset, logical[position..], first, goal);
    }
  }

  /** The file a writer with the rest of a record still to write ends with. */
  ghost function Goals(crc: Checksum, file: bytes, o: nat, left: bytes, first: bool): iset<bytes>
    requires o <= BLOCK
  {
    iset goal: bytes | Aims(crc, file, o, left, first, goal)
  }

  predicate Aims(crc: Checksum, file: bytes, o: nat, left: bytes, first: bool, goal: bytes)
    requires o <= BLOCK
  {
    file + Render(crc, Pieces(o, left, first)) == goal
  }

  lemma Begin(crc: Checksum, file: bytes, o: nat, record: bytes)
    requires Aligned(|file|, o)
    ensures file + FramerOf(crc)(|file|, record) in Goals(crc, file, o, record[0..], true)
  {
    LayoutAt(|file|, o, record, true);
    TakeDrop(record, 0);
    assert Aims(crc, file, o, record, true, file + FramerOf(crc)(|file|, record));
  }

  lemma Finish(crc: Checksum, file: bytes, o: nat, left: bytes, first: bool, goal: bytes)
    requires o <= BLOCK && left == [] && goal in Goals(crc, file, o, left, first)
    ensures file == goal
  {
    assert Aims(crc, file, o, left, first, goal);
    assert file + [] == file;
  }

  /** Alignment and progress of one turn of the writer's loop. */
  lemma OffsetStep(length: nat, o: nat, left: bytes)
    requires Aligned(length, o) && left != []
    ensures var q := PaddedOffset(o);
            var n := Least(BLOCK - q - HEADER, |left|);
            && Aligned(length + |Padding(o)| + HEADER + n, q + HEADER + n)
            && (n > 0 || Rank(q + HEADER + n) < Rank(o))
  {
  }

  lemma LayoutAt(p: nat, o: nat, left: bytes, first: bool)
    requires o <= BLOCK && o % BLOCK == p % BLOCK
    ensures Pieces(o, left, first) == Pieces(p % BLOCK, left, first)
  {
    if o < BLOCK {
      assert o == p % BLOCK;
    }
  }

  /** One turn of the writer's loop: padding if needed, then one fragment. */
  lemma Unroll(crc: Checksum, o: nat, file: bytes, left: bytes, first: bool)
    requires o <= BLOCK && left != []
    ensures var q := PaddedOffset(o);
            var n := Least(BLOCK - q - HEADER, |left|);
            file + Render(crc, Pieces(o, left, first)) ==
              ((file + Padding(o)) + Fragment(crc, FragmentType(first, n == |left|), left[..n]))
                + Render(crc, Pieces(q + HEADER + n, left[n..], false))
  {
    var q := PaddedOffset(o);
    var n := Least(BLOCK - q - HEADER, |left|);
    var s := Piece(FragmentType(first, n == |left|), left[..n]);
    var more := Pieces(q + HEADER + n, left[n..], false);
    RenderCons(crc, s, more);
    if o < BLOCK && BLOCK - o < HEADER {
      RenderCons(crc, Skip(BLOCK - o), [s] + more);
    } else {
      assert Padding(o) == [];
    }
    Regroup(file, Padding(o), Fragment(crc, s.ty, s.payload), Render(crc, more));
  }

  lemma AimNext(crc: Checksum, o: nat, file: bytes, left: bytes, first: bool, goal: bytes)
    requires o <= BLOCK && left != [] && goal in Goals(crc, file, o, left, first)
    ensures var q := PaddedOffset(o);
            var n := Least(BLOCK - q - HEADER, |left|);
            goal in Goals(crc, (file + Padding(o)) + Fragment(crc, FragmentType(first, n == |left|), left[..n]),
                          q + HEADER + n, left[n..], false)
  {
    Unroll(crc, o, file, left, first);
    assert Aims(crc, file, o, left, first, goal);
  }

  lemma RenderCons(crc: Checksum, s: Step, steps: seq<Step>)
    ensures Render(crc, [s] + steps) == RenderStep(crc, s) + Render(crc, steps)
  {
    assert ([s] + steps)[1..] == steps;
  }

  lemma Regroup(a: bytes, z: bytes, f: bytes, more: bytes)
    ensures a + (z + (f + more)) == (a + z) + f + more
    ensures z == [] ==> a + (f + more) == (a + z) + f + more
  {
  }

  // ----- Reading -----

  /** The step at an offset of one block, of which `final` says whether it is the file's last. */
  method StepInBlock(crc: Checksum, block: bytes, offset: nat, final: bool, ghost file: bytes, ghost blockStart: nat)
      returns (step: Step)
    requires offset < |block| <= BLOCK && blockStart % BLOCK == 0 && blockStart + |block| <= |file|
    requires block == file[blockStart..blockStart + |block|]
    requires final == (blockStart + |block| == |file|) && (!final ==> |block| == BLOCK)
    ensures step == NextStep(crc, file[blockStart + offset..], blockStart + offset)
  {
    ghost var tail := file[blockStart + offset..];
    BlockOffset(blockStart, offset);
    var remaining := |block| - offset;
    InBlock(block, offset, file, blockStart, 0, remaining);
    if remaining < HEADER {
      if final {
        return Torn;
      }
      if block[offset..] != Zeros(remaining) {
        return Corrupt;
      }
      return Skip(remaining);
    }
    InBlock(block, offset, file, blockStart, 0, 4);
    InBlock(block, offset, file, blockStart, 4, 6);
    var length := FromLittleEndian(block[offset + 4..offset + 6]);
    if offset + HEADER + length > |block| {
      return if final then Torn else Corrupt;
    }
    InBlock(block, offset, file, blockStart, HEADER, HEADER + length);
    var fragment := block[offset + HEADER..offset + HEADER + length];
    if Unmask(Word(block[offset..offset + 4])) != crc(block[offset + 6], fragment) {
      return Corrupt;
    }
    return Piece(block[offset + 6], fragment);
  }

  lemma InBlock(block: bytes, offset: nat, file: bytes, blockStart: nat, i: nat, j: nat)
    requires offset < |block| && blockStart + |block| <= |file| && block == file[blockStart..blockStart + |block|]
    requires i <= j <= |block| - offset
    ensures var tail := file[blockStart + offset..];
            && |tail| >= |block| - offset && tail[i..j] == block[offset + i..offset + j]
            && (i == 0 && offset + j == |block| ==> tail[..j] == block[offset..])
  {
    var tail := file[blockStart + offset..];
    forall k | i <= k < j ensures tail[k] == block[offset + k] {
    }
  }

  /** What a replay reports: whole records and the length at which the file may be extended. */
  function Report(r: Result<State>): Result<(seq<bytes>, nat)> {
    match r
    case Err => Err
    case Ok(st) => Ok((st.records, ValidBytes(st)))
  }

  /** States of a replay of the file, with the result each of them leads to. */
  ghost function Leads(crc: Checksum, limit: nat, file: bytes): iset<(State, Result<State>)> {
    iset x: (State, Result<State>) | x.0.p <= |file| && Replay(ReaderOf(crc), limit, file[x.0.p..], x.0) == x.1
  }

  /** A step stays inside its block. */
  lemma StepSize(crc: Checksum, tail: bytes, p: nat, remaining: nat)
    requires tail != [] && remaining == Least(BLOCK - p % BLOCK, |tail|)
    ensures Size(NextStep(crc, tail, p)) <= remaining
    ensures NextStep(crc, tail, p).Skip? || NextStep(crc, tail, p).Piece? ==> Size(NextStep(crc, tail, p)) > 0
  {
  }

  lemma LeadsOn(crc: Checksum, limit: nat, file: bytes, st: State, goal: Result<State>, step: Step)
    requires (st, goal) in Leads(crc, limit, file) && st.p < |file| && step == NextStep(crc, file[st.p..], st.p)
    requires st.p + Size(step) <= |file|
    ensures step.Torn? ==> goal == Ok(st)
    ensures step.Corrupt? || (!step.Torn? && Advance(limit, st, step).Err?) ==> goal == Err
    ensures !step.Torn? && !step.Corrupt? && Advance(limit, st, step).Ok? ==>
              (Advance(limit, st, step).value, goal) in Leads(crc, limit, file)
  {
    var tail := file[st.p..];
    assert ReaderOf(crc)(tail, st.p) == step;
    if !step.Torn? && !step.Corrupt? && Advance(limit, st, step).Ok? {
      AdvancePosition(limit, st, step);
      DropDrop(file, st.p, st.p + Size(step));
      ReplayOne(ReaderOf(crc), limit, tail, st, step, Advance(limit, st, step).value, tail[Size(step)..]);
    }
  }

  /** Reads the step at one offset of a block and feeds it to the state. */
  method ReplayStep(crc: Checksum, limit: nat, block: bytes, final: bool, blockStart: nat, st: State,
                    ghost file: bytes, ghost goal: Result<State>)
      returns (r: Result<State>, stopped: bool)
    requires 0 < |block| <= BLOCK && blockStart % BLOCK == 0 && blockStart + |block| <= |file|
    requires blockStart <= st.p < blockStart + |block| && block == file[blockStart..blockStart + |block|]
    requires final == (blockStart + |block| == |file|) && (!final ==> |block| == BLOCK)
    requires (st, goal) in Leads(crc, limit, file)
    ensures stopped ==> r == goal
    ensures !stopped ==> r.Ok? && st.p < r.value.p <= blockStart + |block| && (r.value, goal) in Leads(crc, limit, file)
  {
    var offset := st.p - blockStart;
    var step := StepInBlock(crc, block, offset, final, file, blockStart);
    BlockOffset(blockStart, offset);
    StepSize(crc, file[st.p..], st.p, |block| - offset);
    LeadsOn(crc, limit, file, st, goal, step);
    if step.Torn? {
      return Ok(st), true;
    }
    if step.Corrupt? {
      return Err, true;
    }
    var after := Advance(limit, st, step);
    if after.Err? {
      return Err, true;
    }
    AdvancePosition(limit, st, step);
    return after, false;
  }

  /** Reads the steps of one block. */
  method ReplayBlock(crc: Checksum, limit: nat, block: bytes, final: bool, st: State,
                     ghost file: bytes, ghost goal: Result<State>)
      returns (r: Result<State>, stopped: bool)
    requires 0 < |block| <= BLOCK && st.p % BLOCK == 0 && st.p + |block| <= |file|
    requires block == file[st.p..st.p + |block|]
    requires final == (st.p + |block| == |file|) && (!final ==> |block| == BLOCK)
    requires (st, goal) in Leads(crc, limit, file)
    ensures stopped ==> r == goal
    ensures !stopped ==> r.Ok? && r.value.p == st.p + |block| && (r.value, goal) in Leads(crc, limit, file)
  {
    var current := st;
    while current.p < st.p + |block|
      invariant st.p <= current.p <= st.p + |block| && (current, goal) in Leads(crc, limit, file)
      decreases st.p + |block| - current.p
    {
      r, stopped := ReplayStep(crc, limit, block, final, st.p, current, file, goal);
      if stopped {
        return;
      }
      current := r.value;
    }
    return Ok(current), false;
  }

  /** Replays a file block by block. */
  method ReplayFile(crc: Checksum, limit: nat, file: bytes) returns (r: Result<(seq<bytes>, nat)>)
    ensures r == Report(Replay(ReaderOf(crc), limit, file, START))
  {
    var st := START;
    ghost var goal := Replay(ReaderOf(crc), limit, file, START);
    TakeDrop(file, 0);
    while st.p < |file|
      invariant st.p <= |file| && (st.p % BLOCK == 0 || st.p == |file|) && (st, goal) in Leads(crc, limit, file)
      decreases |file| - st.p
    {
      var length := Least(BLOCK, |file| - st.p);
      var final := st.p + length == |file|;
      var after, stopped := ReplayBlock(crc, limit, file[st.p..st.p + length], final, st, file, goal);
      if stopped {
        return Report(after);
      }
      BlockOffset(st.p, length);
      st := after.value;
    }
    AtEnd(crc, limit, file, st, goal);
    return Report(Ok(st));
  }

  lemma AtEnd(crc: Checksum, limit: nat, file: bytes, st: State, goal: Result<State>)
    requires (st, goal) in Leads(crc, limit, file) && st.p == |file|
    ensures goal == Ok(st)
  {
    assert file[|file|..] == [];
  }
}
