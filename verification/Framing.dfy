/** The block-framed record log shared by the write-ahead log and the manifest. */
module Framing {
  import opened Bytes

  const BLOCK := 32768
  const HEADER := 7

  const FULL: byte := 1
  const FIRST: byte := 2
  const MIDDLE: byte := 3
  const LAST: byte := 4

  /** The checksum of a fragment type followed by its payload. */
  type Checksum = (byte, bytes) -> u32

  // ----- Checksum masking -----

  const DELTA: u32 := 0xa282_ead8

  function RotateRight15(c: u32): u32 {
    c / 0x8000 + (c % 0x8000) * 0x2_0000
  }

  function RotateLeft15(c: u32): u32 {
    (c % 0x2_0000) * 0x8000 + c / 0x2_0000
  }

  function Mask(c: u32): u32 {
    (RotateRight15(c) + DELTA) % U32_END
  }

  function Unmask(m: u32): u32 {
    RotateLeft15((m - DELTA) % U32_END)
  }

  lemma UnmaskMask(c: u32)
    ensures Unmask(Mask(c)) == c
  {
    var r := RotateRight15(c);
    assert (Mask(c) - DELTA) % U32_END == r;
    assert r / 0x2_0000 == c % 0x8000 && r % 0x2_0000 == c / 0x8000;
  }

  lemma MaskUnmask(m: u32)
    ensures Mask(Unmask(m)) == m
  {
    var x := (m - DELTA) % U32_END;
    var c := RotateLeft15(x);
    assert c / 0x8000 == x % 0x2_0000 && c % 0x8000 == x / 0x2_0000;
    assert RotateRight15(c) == x;
  }

  // ----- Physical fragments -----

  function Fragment(crc: Checksum, ty: byte, payload: bytes): (r: bytes)
    ensures |r| == HEADER + |payload|
  {
    LittleEndian(Mask(crc(ty, payload)), 4) + LittleEndian(|payload|, 2) + [ty] + payload
  }

  function FragmentType(first: bool, last: bool): byte {
    if first then (if last then FULL else FIRST) else (if last then LAST else MIDDLE)
  }

  function Least(a: nat, b: nat): nat {
    if a < b then a else b
  }

  // ----- Physical layout of a record -----

  /** What stands at a file position: padding, a fragment, a torn end or damage. */
  datatype Step = Skip(n: nat) | Piece(ty: byte, payload: bytes) | Torn | Corrupt

  function Size(s: Step): nat {
    match s
    case Skip(n) => n
    case Piece(_, payload) => HEADER + |payload|
    case _ => 0
  }

  /** Distance to a position where a fragment with a nonempty payload fits. */
  function Rank(o: nat): nat {
    if o + HEADER > BLOCK then 1 else if o + HEADER == BLOCK then 2 else 0
  }

  /** Padding and fragments for the rest of a record from block offset `o`. */
  function Pieces(o: nat, left: bytes, first: bool): seq<Step>
    requires o <= BLOCK
    decreases |left|, Rank(o)
  {
    if left == [] then []
    else if o == BLOCK then Pieces(0, left, first)
    else if o + HEADER > BLOCK then [Skip(BLOCK - o)] + Pieces(0, left, first)
    else
      var n := Least(BLOCK - o - HEADER, |left|);
      [Piece(FragmentType(first, n == |left|), left[..n])] + Pieces(o + HEADER + n, left[n..], false)
  }

  function RenderStep(crc: Checksum, s: Step): (r: bytes)
    ensures |r| == Size(s)
  {
    match s
    case Skip(n) => Zeros(n)
    case Piece(ty, payload) => Fragment(crc, ty, payload)
    case _ => []
  }

  function Render(crc: Checksum, steps: seq<Step>): bytes {
    if steps == [] then [] else RenderStep(crc, steps[0]) + Render(crc, steps[1..])
  }

  function TotalSize(steps: seq<Step>): nat {
    if steps == [] then 0 else Size(steps[0]) + TotalSize(steps[1..])
  }

  lemma {:induction false} RenderSize(crc: Checksum, steps: seq<Step>)
    ensures |Render(crc, steps)| == TotalSize(steps)
  {
    if steps != [] {
      RenderSize(crc, steps[1..]);
    }
  }

  /** The bytes appended for one record at block offset `o`. */
  function Written(crc: Checksum, o: nat, record: bytes): bytes
    requires o <= BLOCK
  {
    Render(crc, Pieces(o, record, true))
  }

  // ----- Reading one step -----

  function Word(s: bytes): u32
    requires |s| == 4
  {
    Pow256Values();
    FromLittleEndian(s)
  }

  /** What stands at position `p` of a file whose remaining bytes are `tail`. */
  function NextStep(crc: Checksum, tail: bytes, p: nat): Step
    requires tail != []
  {
    var room := BLOCK - p % BLOCK;
    var remaining := Least(room, |tail|);
    var final := |tail| <= room;
    if remaining < HEADER then
      if final then Torn else if tail[..remaining] == Zeros(remaining) then Skip(remaining) else Corrupt
    else
      var n := FromLittleEndian(tail[4..6]);
      if HEADER + n > remaining then
        if final then Torn else Corrupt
      else
        var payload := tail[HEADER..HEADER + n];
        if Unmask(Word(tail[..4])) != crc(tail[6], payload) then Corrupt else Piece(tail[6], payload)
  }

  lemma FragmentFields(crc: Checksum, ty: byte, payload: bytes, rest: bytes)
    requires |payload| < 0x1_0000
    ensures var t := Fragment(crc, ty, payload) + rest;
            && Unmask(Word(t[..4])) == crc(ty, payload) && FromLittleEndian(t[4..6]) == |payload| && t[6] == ty
            && t[HEADER..HEADER + |payload|] == payload
  {
    var t := Fragment(crc, ty, payload) + rest;
    var m := Mask(crc(ty, payload));
    Pow256Values();
    assert t[..4] == LittleEndian(m, 4);
    assert t[4..6] == LittleEndian(|payload|, 2);
    LittleEndianRoundTrip(m, 4);
    LittleEndianRoundTrip(|payload|, 2);
    UnmaskMask(crc(ty, payload));
  }

  /** The step fits its block, and padding is followed by more. */
  predicate Fits(s: Step, p: nat, more: bool) {
    match s
    case Skip(n) => p % BLOCK + n == BLOCK && 0 < n < HEADER && more
    case Piece(_, payload) => p % BLOCK + HEADER + |payload| <= BLOCK
    case _ => false
  }

  /** A step that fits is read back. */
  lemma ReadStep(crc: Checksum, s: Step, rest: bytes, p: nat)
    requires Fits(s, p, rest != [])
    ensures RenderStep(crc, s) + rest != [] && NextStep(crc, RenderStep(crc, s) + rest, p) == s
  {
    match s {
      case Skip(n) =>
        assert (Zeros(n) + rest)[..n] == Zeros(n);
      case Piece(ty, payload) =>
        FragmentFields(crc, ty, payload, rest);
    }
  }

  /** A strict part of a step, or padding with nothing after it, is a torn end. */
  lemma ReadTorn(crc: Checksum, s: Step, p: nat, c: nat)
    requires Fits(s, p, true) && 0 < c && (if s.Skip? then c <= Size(s) else c < Size(s))
    ensures NextStep(crc, RenderStep(crc, s)[..c], p) == Torn
  {
    if s.Piece? && c >= HEADER {
      var f := Fragment(crc, s.ty, s.payload);
      FragmentFields(crc, s.ty, s.payload, []);
      assert f + [] == f && f[..c][4..6] == f[4..6];
    }
  }

  // ----- Replay -----

  /** A step never consumes more than is there. */
  predicate Bounded(tail: bytes, step: Step) {
    Size(step) <= |tail| && (step.Skip? ==> step.n > 0)
  }

  /** Reads the step at a file position. */
  type Reader = f: (bytes, nat) -> Step | forall t: bytes, p: nat | t != [] :: Bounded(t, f(t, p))
    witness (t, p) => Torn

  function ReaderOf(crc: Checksum): Reader {
    (t: bytes, p: nat) => if t == [] then Torn else NextStep(crc, t, p)
  }

  /** Position, the record being assembled and where it began, and the whole records so far. */
  datatype State = State(p: nat, logical: bytes, assembling: bool, start: nat, records: seq<bytes>)

  const START := State(0, [], false, 0, [])

  /** Where the file may be cut and extended. */
  function ValidBytes(st: State): nat {
    if st.assembling then st.start else st.p
  }

  function Advance(limit: nat, st: State, step: Step): Result<State> {
    match step
    case Skip(n) => Ok(st.(p := st.p + n))
    case Piece(ty, payload) =>
      var q := st.p + HEADER + |payload|;
      if |st.logical| + |payload| > limit then Err
      else if ty == FULL && !st.assembling then Ok(State(q, [], false, 0, st.records + [payload]))
      else if ty == FIRST && !st.assembling then Ok(State(q, payload, true, st.p, st.records))
      else if ty == MIDDLE && st.assembling then Ok(State(q, st.logical + payload, true, st.start, st.records))
      else if ty == LAST && st.assembling then Ok(State(q, [], false, 0, st.records + [st.logical + payload]))
      else Err
    case _ => Err
  }

  /** Reads steps until the end of the file or a torn one. */
  function Replay(next: Reader, limit: nat, tail: bytes, st: State): Result<State>
    decreases |tail|
  {
    if tail == [] then Ok(st) else
      var step := next(tail, st.p);
      if step.Torn? then Ok(st) else if step.Corrupt? then Err else
        match Advance(limit, st, step)
        case Err => Err
        case Ok(after) => Replay(next, limit, tail[Size(step)..], after)
  }

  function Feed(limit: nat, st: State, steps: seq<Step>): Result<State>
    decreases |steps|
  {
    if steps == [] then Ok(st) else
      match Advance(limit, st, steps[0])
      case Err => Err
      case Ok(after) => Feed(limit, after, steps[1..])
  }

  /** Every step fits its block. */
  predicate AllFit(steps: seq<Step>, p: nat, more: bool) {
    steps != [] ==> Fits(steps[0], p, more || |steps| > 1) && AllFit(steps[1..], p + Size(steps[0]), more)
  }

  /** The reader agrees with the byte format. */
  ghost predicate ReadsFormat(next: Reader, crc: Checksum) {
    && (forall s: Step, rest: bytes, p: nat {:trigger next(RenderStep(crc, s) + rest, p)} | Fits(s, p, rest != []) ::
          next(RenderStep(crc, s) + rest, p) == s)
    && (forall s: Step, p: nat, c: nat {:trigger next(RenderStep(crc, s)[..c], p)} |
          Fits(s, p, true) && 0 < c && c <= Size(s) && (s.Skip? || c < Size(s)) ::
          next(RenderStep(crc, s)[..c], p) == Torn)
  }

  lemma ReaderReadsFormat(crc: Checksum)
    ensures ReadsFormat(ReaderOf(crc), crc)
  {
    var next := ReaderOf(crc);
    forall s: Step, rest: bytes, p: nat | Fits(s, p, rest != []) ensures next(RenderStep(crc, s) + rest, p) == s {
      ReadStep(crc, s, rest, p);
    }
    forall s: Step, p: nat, c: nat | Fits(s, p, true) && 0 < c && c <= Size(s) && (s.Skip? || c < Size(s))
      ensures next(RenderStep(crc, s)[..c], p) == Torn
    {
      ReadTorn(crc, s, p, c);
    }
  }

  lemma RenderNonempty(crc: Checksum, steps: seq<Step>, p: nat, more: bool)
    requires steps != [] && AllFit(steps, p, more)
    ensures Render(crc, steps) != []
  {
  }

  lemma ReplayOne(next: Reader, limit: nat, tail: bytes, st: State, step: Step, after: State, rest: bytes)
    requires tail != [] && next(tail, st.p) == step && Advance(limit, st, step) == Ok(after)
    requires Size(step) <= |tail| && tail[Size(step)..] == rest
    ensures Replay(next, limit, tail, st) == Replay(next, limit, rest, after)
  {
  }

  /** The first of several rendered steps is read back and the others remain. */
  lemma ReadFirst(next: Reader, crc: Checksum, steps: seq<Step>, rest: bytes, p: nat)
    requires ReadsFormat(next, crc) && steps != [] && AllFit(steps, p, rest != [])
    ensures var tail := Render(crc, steps) + rest;
            && tail != [] && next(tail, p) == steps[0] && Size(steps[0]) <= |tail|
            && tail[Size(steps[0])..] == Render(crc, steps[1..]) + rest
  {
    var more := Render(crc, steps[1..]) + rest;
    var head := RenderStep(crc, steps[0]);
    ConcatAssociative(head, Render(crc, steps[1..]), rest);
    if |steps| > 1 {
      RenderNonempty(crc, steps[1..], p + Size(steps[0]), rest != []);
    }
    assert next(head + more, p) == steps[0];
    ConcatParts(head, more);
  }

  /** Rendered steps are fed to the state one by one, whatever follows them. */
  lemma {:induction false} ReplayRendered(next: Reader, crc: Checksum, limit: nat, steps: seq<Step>, rest: bytes,
                                          st: State)
    requires ReadsFormat(next, crc) && AllFit(steps, st.p, rest != []) && Feed(limit, st, steps).Ok?
    ensures Replay(next, limit, Render(crc, steps) + rest, st) ==
              Replay(next, limit, rest, Feed(limit, st, steps).value)
    decreases |steps|
  {
    if steps == [] {
      assert Render(crc, steps) + rest == rest;
    } else {
      var after := Advance(limit, st, steps[0]).value;
      ReadFirst(next, crc, steps, rest, st.p);
      ReplayOne(next, limit, Render(crc, steps) + rest, st, steps[0], after, Render(crc, steps[1..]) + rest);
      AdvancePosition(limit, st, steps[0]);
      ReplayRendered(next, crc, limit, steps[1..], rest, after);
    }
  }

  lemma AdvancePosition(limit: nat, st: State, step: Step)
    requires Advance(limit, st, step).Ok?
    ensures Advance(limit, st, step).value.p == st.p + Size(step)
  {
  }

  /** A cut inside rendered steps stops the replay after some of them, never after all. */
  lemma {:induction false} ReplayCut(next: Reader, crc: Checksum, limit: nat, steps: seq<Step>, st: State, c: nat)
      returns (j: nat)
    requires ReadsFormat(next, crc) && AllFit(steps, st.p, false) && Feed(limit, st, steps).Ok?
    requires c < |Render(crc, steps)|
    ensures j < |steps| && Replay(next, limit, Render(crc, steps)[..c], st) == Feed(limit, st, steps[..j])
    ensures TotalSize(steps[..j]) <= c
    decreases |steps|
  {
    var step := steps[0];
    var head := RenderStep(crc, step);
    var cut := Render(crc, steps)[..c];
    assert steps[..0] == [];
    if c == 0 {
      return 0;
    }
    if c < |head| || (c == |head| && step.Skip?) {
      assert cut == head[..c];
      assert next(head[..c], st.p) == Torn;
      return 0;
    }
    var more := Render(crc, steps[1..]);
    var after := Advance(limit, st, step).value;
    assert cut == head + more[..c - |head|];
    assert next(cut, st.p) == step;
    ConcatParts(head, more[..c - |head|]);
    ReplayOne(next, limit, cut, st, step, after, more[..c - |head|]);
    AdvancePosition(limit, st, step);
    var k := ReplayCut(next, crc, limit, steps[1..], after, c - |head|);
    j := k + 1;
    TakeFirst(steps, k);
  }

  lemma TakeFirst(steps: seq<Step>, k: nat)
    requires k < |steps|
    ensures steps[..k + 1][0] == steps[0] && steps[..k + 1][1..] == steps[1..][..k]
  {
  }

  // ----- One record -----

  lemma BlockOffset(p: nat, n: nat)
    requires p % BLOCK + n <= BLOCK
    ensures (p + n) % BLOCK == if p % BLOCK + n == BLOCK then 0 else p % BLOCK + n
  {
  }

  /** The layout depends on the block offset only, a full block being offset zero. */
  lemma PiecesAt(p: nat, n: nat, left: bytes, first: bool)
    requires p % BLOCK + n <= BLOCK
    ensures Pieces(p % BLOCK + n, left, first) == Pieces((p + n) % BLOCK, left, first)
  {
    BlockOffset(p, n);
  }

  function PieceLength(o: nat, left: bytes): nat
    requires o + HEADER <= BLOCK
  {
    Least(BLOCK - o - HEADER, |left|)
  }

  predicate InTrailer(p: nat) {
    p % BLOCK + HEADER > BLOCK
  }

  function FirstPiece(o: nat, left: bytes, first: bool): Step
    requires o + HEADER <= BLOCK
  {
    var n := PieceLength(o, left);
    Piece(FragmentType(first, n == |left|), left[..n])
  }

  lemma TrailerStep(p: nat, left: bytes, first: bool)
    requires left != [] && InTrailer(p)
    ensures (p + (BLOCK - p % BLOCK)) % BLOCK == 0
    ensures Pieces(p % BLOCK, left, first) == [Skip(BLOCK - p % BLOCK)] + Pieces(0, left, first)
  {
    BlockOffset(p, BLOCK - p % BLOCK);
  }

  lemma PieceStep(p: nat, left: bytes, first: bool)
    requires left != [] && !InTrailer(p)
    ensures var n := PieceLength(p % BLOCK, left);
            Pieces(p % BLOCK, left, first) ==
              [FirstPiece(p % BLOCK, left, first)] + Pieces((p + HEADER + n) % BLOCK, left[n..], false)
  {
    var n := PieceLength(p % BLOCK, left);
    PiecesAt(p, HEADER + n, left[n..], false);
  }

  /** The first step of a record's layout and what follows it. */
  lemma PiecesStep(p: nat, left: bytes, first: bool)
    requires left != []
    ensures InTrailer(p) ==>
              && (p + (BLOCK - p % BLOCK)) % BLOCK == 0
              && Pieces(p % BLOCK, left, first) == [Skip(BLOCK - p % BLOCK)] + Pieces(0, left, first)
    ensures !InTrailer(p) ==>
              var n := PieceLength(p % BLOCK, left);
              Pieces(p % BLOCK, left, first) ==
                [FirstPiece(p % BLOCK, left, first)] + Pieces((p + HEADER + n) % BLOCK, left[n..], false)
  {
    if InTrailer(p) {
      TrailerStep(p, left, first);
    } else {
      PieceStep(p, left, first);
    }
  }

  lemma ConsFit(s: Step, steps: seq<Step>, p: nat)
    requires Fits(s, p, steps != []) && AllFit(steps, p + Size(s), false)
    ensures AllFit([s] + steps, p, false)
  {
    assert ([s] + steps)[1..] == steps;
  }

  lemma TrailerFits(p: nat, steps: seq<Step>)
    requires InTrailer(p) && steps != [] && AllFit(steps, p + (BLOCK - p % BLOCK), false)
    ensures AllFit([Skip(BLOCK - p % BLOCK)] + steps, p, false)
  {
    ConsFit(Skip(BLOCK - p % BLOCK), steps, p);
  }

  lemma PieceFits(p: nat, left: bytes, first: bool, steps: seq<Step>)
    requires left != [] && !InTrailer(p)
    requires AllFit(steps, p + HEADER + PieceLength(p % BLOCK, left), false)
    ensures AllFit([FirstPiece(p % BLOCK, left, first)] + steps, p, false)
  {
    ConsFit(FirstPiece(p % BLOCK, left, first), steps, p);
  }

  lemma {:induction false} PiecesFit(p: nat, left: bytes, first: bool)
    ensures AllFit(Pieces(p % BLOCK, left, first), p, false)
    ensures left != [] ==> Pieces(p % BLOCK, left, first) != []
    decreases |left|, Rank(p % BLOCK)
  {
    if left != [] {
      if InTrailer(p) {
        TrailerStep(p, left, first);
        PiecesFit(p + (BLOCK - p % BLOCK), left, first);
        TrailerFits(p, Pieces(0, left, first));
      } else {
        var n := PieceLength(p % BLOCK, left);
        PieceStep(p, left, first);
        BlockOffset(p, HEADER + n);
        PiecesFit(p + HEADER + n, left[n..], false);
        PieceFits(p, left, first, Pieces((p + HEADER + n) % BLOCK, left[n..], false));
      }
    }
  }

  /** Ready to read the rest of a record: assembling unless it is the whole record. */
  predicate Expects(limit: nat, st: State, left: bytes, first: bool) {
    && left != [] && st.assembling == !first && (first ==> st.logical == [])
    && |st.logical| + |left| <= limit
  }

  function Finished(st: State, steps: seq<Step>, left: bytes): State {
    State(st.p + TotalSize(steps), [], false, 0, st.records + [st.logical + left])
  }

  lemma FeedCons(limit: nat, st: State, s: Step, steps: seq<Step>)
    ensures TotalSize([s] + steps) == Size(s) + TotalSize(steps)
    ensures Feed(limit, st, [s] + steps) ==
              match Advance(limit, st, s) case Err => Err case Ok(after) => Feed(limit, after, steps)
  {
    assert ([s] + steps)[1..] == steps;
  }

  /** The state after the first fragment of a record that does not end in it. */
  lemma AdvanceFirst(limit: nat, st: State, left: bytes, first: bool)
    requires Expects(limit, st, left, first) && !InTrailer(st.p)
    ensures var o := st.p % BLOCK;
            var n := PieceLength(o, left);
            var q := st.p + HEADER + n;
            Advance(limit, st, FirstPiece(o, left, first)) == Ok(
              if n == |left| then State(q, [], false, 0, st.records + [st.logical + left])
              else State(q, st.logical + left[..n], true, if first then st.p else st.start, st.records))
  {
    var n := PieceLength(st.p % BLOCK, left);
    TakeDrop(left, n);
    assert first ==> st.logical + left[..n] == left[..n];
  }

  lemma FinishedCons(limit: nat, st: State, s: Step, more: seq<Step>, head: bytes, left: bytes, after: State)
    requires Advance(limit, st, s) == Ok(after) && after.p == st.p + Size(s)
    requires after.records == st.records && after.logical == st.logical + head
    requires Feed(limit, after, more) == Ok(Finished(after, more, left))
    ensures Feed(limit, st, [s] + more) == Ok(Finished(st, [s] + more, head + left))
  {
    FeedCons(limit, st, s, more);
    ConcatAssociative(st.logical, head, left);
  }

  lemma FinishedSkip(limit: nat, st: State, k: nat, more: seq<Step>, left: bytes)
    requires Feed(limit, st.(p := st.p + k), more) == Ok(Finished(st.(p := st.p + k), more, left))
    ensures Feed(limit, st, [Skip(k)] + more) == Ok(Finished(st, [Skip(k)] + more, left))
  {
    FeedCons(limit, st, Skip(k), more);
  }

  /** Reading a whole record's layout adds exactly that record. */
  lemma {:induction false} PiecesFeed(limit: nat, st: State, left: bytes, first: bool)
    requires Expects(limit, st, left, first)
    ensures var steps := Pieces(st.p % BLOCK, left, first);
            Feed(limit, st, steps) == Ok(Finished(st, steps, left))
    decreases |left|, Rank(st.p % BLOCK)
  {
    var o := st.p % BLOCK;
    PiecesStep(st.p, left, first);
    if InTrailer(st.p) {
      PiecesFeed(limit, st.(p := st.p + (BLOCK - o)), left, first);
      FinishedSkip(limit, st, BLOCK - o, Pieces(0, left, first), left);
    } else {
      PieceFeed(limit, st, left, first);
    }
  }

  lemma {:induction false} PieceFeed(limit: nat, st: State, left: bytes, first: bool)
    requires Expects(limit, st, left, first) && !InTrailer(st.p)
    ensures var steps := Pieces(st.p % BLOCK, left, first);
            Feed(limit, st, steps) == Ok(Finished(st, steps, left))
    decreases |left|, Rank(st.p % BLOCK), 0
  {
    var o := st.p % BLOCK;
    var n := PieceLength(o, left);
    var q := st.p + HEADER + n;
    var more := Pieces(q % BLOCK, left[n..], false);
    var s := FirstPiece(o, left, first);
    PiecesStep(st.p, left, first);
    AdvanceFirst(limit, st, left, first);
    if n < |left| {
      BlockOffset(st.p, HEADER + n);
      var after := State(q, st.logical + left[..n], true, if first then st.p else st.start, st.records);
      PiecesFeed(limit, after, left[n..], false);
      FinishedCons(limit, st, s, more, left[..n], left[n..], after);
      TakeDrop(left, n);
    } else {
      assert more == [];
      FeedCons(limit, st, s, more);
    }
  }

  /** Where the file may be extended after part of a record that began at `p`. */
  predicate Extends(p: nat, valid: nat) {
    valid == p || (InTrailer(p) && valid == p + (BLOCK - p % BLOCK))
  }

  /** Part of a record's layout yields no record, and the cut point stays before its first fragment. */
  ghost predicate Unfinished(st: State, first: bool, s: State) {
    && s.records == st.records && ValidBytes(s) <= s.p
    && (if first then Extends(st.p, ValidBytes(s)) else s.assembling && s.start == st.start)
  }

  lemma TakeCons<T>(s: T, steps: seq<T>, j: nat)
    requires 0 < j <= |steps| + 1
    ensures ([s] + steps)[..j] == [s] + steps[..j - 1]
  {
  }

  lemma {:induction false} PiecesPartial(limit: nat, st: State, left: bytes, first: bool, j: nat)
    requires Expects(limit, st, left, first) && j < |Pieces(st.p % BLOCK, left, first)| && (!first ==> st.start <= st.p)
    ensures var r := Feed(limit, st, Pieces(st.p % BLOCK, left, first)[..j]);
            r.Ok? && Unfinished(st, first, r.value)
            && r.value.p == st.p + TotalSize(Pieces(st.p % BLOCK, left, first)[..j])
    decreases |left|, Rank(st.p % BLOCK)
  {
    if j > 0 {
      if InTrailer(st.p) {
        TrailerPartial(limit, st, left, first, j);
      } else {
        PiecePartial(limit, st, left, first, j);
      }
    }
  }

  lemma {:induction false} TrailerPartial(limit: nat, st: State, left: bytes, first: bool, j: nat)
    requires Expects(limit, st, left, first) && 0 < j < |Pieces(st.p % BLOCK, left, first)|
    requires (!first ==> st.start <= st.p) && InTrailer(st.p)
    ensures var r := Feed(limit, st, Pieces(st.p % BLOCK, left, first)[..j]);
            r.Ok? && Unfinished(st, first, r.value)
            && r.value.p == st.p + TotalSize(Pieces(st.p % BLOCK, left, first)[..j])
    decreases |left|, Rank(st.p % BLOCK), 0
  {
    var k := BLOCK - st.p % BLOCK;
    var more := Pieces(0, left, first);
    PiecesStep(st.p, left, first);
    TakeCons(Skip(k), more, j);
    FeedCons(limit, st, Skip(k), more[..j - 1]);
    PiecesPartial(limit, st.(p := st.p + k), left, first, j - 1);
  }

  lemma {:induction false} PiecePartial(limit: nat, st: State, left: bytes, first: bool, j: nat)
    requires Expects(limit, st, left, first) && 0 < j < |Pieces(st.p % BLOCK, left, first)|
    requires !first ==> st.start <= st.p
    requires !InTrailer(st.p)
    ensures var r := Feed(limit, st, Pieces(st.p % BLOCK, left, first)[..j]);
            r.Ok? && Unfinished(st, first, r.value)
            && r.value.p == st.p + TotalSize(Pieces(st.p % BLOCK, left, first)[..j])
    decreases |left|, Rank(st.p % BLOCK), 0
  {
    var o := st.p % BLOCK;
    var n := PieceLength(o, left);
    var q := st.p + HEADER + n;
    var more := Pieces(q % BLOCK, left[n..], false);
    var s := FirstPiece(o, left, first);
    PiecesStep(st.p, left, first);
    assert n < |left|;
    AdvanceFirst(limit, st, left, first);
    BlockOffset(st.p, HEADER + n);
    var after := State(q, st.logical + left[..n], true, if first then st.p else st.start, st.records);
    PiecesPartial(limit, after, left[n..], false, j - 1);
    PartialCons(limit, st, s, more, after, first, j);
  }

  lemma PartialCons(limit: nat, st: State, s: Step, more: seq<Step>, after: State, first: bool, j: nat)
    requires 0 < j <= |more| + 1 && Advance(limit, st, s) == Ok(after) && after.p == st.p + Size(s)
    requires after.records == st.records && after.start == if first then st.p else st.start
    requires var r := Feed(limit, after, more[..j - 1]);
             r.Ok? && Unfinished(after, false, r.value) && r.value.p == after.p + TotalSize(more[..j - 1])
    ensures var r := Feed(limit, st, ([s] + more)[..j]);
            r.Ok? && Unfinished(st, first, r.value) && r.value.p == st.p + TotalSize(([s] + more)[..j])
  {
    TakeCons(s, more, j);
    FeedCons(limit, st, s, more[..j - 1]);
  }
}
