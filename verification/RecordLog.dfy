/** Whole logs: records framed one after another, cut anywhere, replayed and extended. */
module RecordLogs {
  import opened Bytes
  import opened Framing

  /** The bytes appended for a record at a file position. */
  type Framer = (nat, bytes) -> bytes

  function FramerOf(crc: Checksum): Framer {
    (p: nat, r: bytes) => Written(crc, p % BLOCK, r)
  }

  /** The bytes of records framed from position `p` on. */
  function LogFrom(frame: Framer, p: nat, rs: seq<bytes>): bytes
    decreases |rs|
  {
    if rs == [] then [] else
      var w := frame(p, rs[0]);
      w + LogFrom(frame, p + |w|, rs[1..])
  }

  function Log(crc: Checksum, rs: seq<bytes>): bytes {
    LogFrom(FramerOf(crc), 0, rs)
  }

  /** Records the format accepts: nonempty and within the size limit. */
  predicate Acceptable(limit: nat, rs: seq<bytes>) {
    forall r | r in rs :: 0 < |r| <= limit
  }

  lemma {:induction false} LogSnoc(frame: Framer, p: nat, rs: seq<bytes>, r: bytes)
    ensures var l := LogFrom(frame, p, rs);
            LogFrom(frame, p, rs + [r]) == l + frame(p + |l|, r)
    decreases |rs|
  {
    if rs == [] {
      assert rs + [r] == [r];
      assert LogFrom(frame, p + |frame(p, r)|, []) == [];
    } else {
      var w := frame(p, rs[0]);
      LogSnoc(frame, p + |w|, rs[1..], r);
      assert (rs + [r])[0] == rs[0] && (rs + [r])[1..] == rs[1..] + [r];
      var l := LogFrom(frame, p + |w|, rs[1..]);
      ConcatAssociative(w, l, frame(p + |w| + |l|, r));
    }
  }

  /** A state between two records. */
  predicate Between(st: State) {
    !st.assembling && st.logical == []
  }

  /** A record framed at the current position is read whole. */
  lemma ReadRecord(next: Reader, crc: Checksum, limit: nat, r: bytes, rest: bytes, st: State)
    requires ReadsFormat(next, crc) && Between(st) && 0 < |r| <= limit
    ensures var w := Written(crc, st.p % BLOCK, r);
            Replay(next, limit, w + rest, st) ==
            Replay(next, limit, rest, State(st.p + |w|, [], false, 0, st.records + [r]))
  {
    var steps := Pieces(st.p % BLOCK, r, true);
    PiecesFit(st.p, r, true);
    FitMore(steps, st.p, rest != []);
    PiecesFeed(limit, st, r, true);
    RenderSize(crc, steps);
    ReplayRendered(next, crc, limit, steps, rest, st);
    assert [] + r == r;
  }

  lemma {:induction false} FitMore(steps: seq<Step>, p: nat, more: bool)
    requires AllFit(steps, p, false)
    ensures AllFit(steps, p, more)
    decreases |steps|
  {
    if steps != [] {
      FitMore(steps[1..], p + Size(steps[0]), more);
    }
  }

  /** Part of a record yields nothing, and the file may be extended where the record began or after its padding. */
  lemma ReadPart(next: Reader, crc: Checksum, limit: nat, r: bytes, st: State, c: nat)
    requires ReadsFormat(next, crc) && Between(st) && 0 < |r| <= limit && c < |Written(crc, st.p % BLOCK, r)|
    ensures var x := Replay(next, limit, Written(crc, st.p % BLOCK, r)[..c], st);
            && x.Ok? && x.value.records == st.records
            && Extends(st.p, ValidBytes(x.value)) && ValidBytes(x.value) <= st.p + c
  {
    var steps := Pieces(st.p % BLOCK, r, true);
    PiecesFit(st.p, r, true);
    PiecesFeed(limit, st, r, true);
    var j := ReplayCut(next, crc, limit, steps, st, c);
    PiecesPartial(limit, st, r, true, j);
  }

  // ----- The whole log -----

  /** Replays the rest of a file from a state. */
  type Replayer = (bytes, State) -> Result<State>

  function ReplayerOf(next: Reader, limit: nat): Replayer {
    (tail: bytes, st: State) => Replay(next, limit, tail, st)
  }

  ghost predicate StopsBefore(x: Result<State>, st: State, c: nat) {
    && x.Ok? && x.value.records == st.records
    && Extends(st.p, ValidBytes(x.value)) && ValidBytes(x.value) <= st.p + c
  }

  function AfterRecord(frame: Framer, st: State, r: bytes): State {
    State(st.p + |frame(st.p, r)|, [], false, 0, st.records + [r])
  }

  /** Framed records are read one by one. */
  ghost predicate ReadsWhole(replay: Replayer, frame: Framer, limit: nat) {
    forall r: bytes, rest: bytes, st: State {:trigger replay(frame(st.p, r) + rest, st)} |
      Between(st) && 0 < |r| <= limit ::
      replay(frame(st.p, r) + rest, st) == replay(rest, AfterRecord(frame, st, r))
  }

  /** Part of a framed record is read as nothing. */
  ghost predicate ReadsPart(replay: Replayer, frame: Framer, limit: nat) {
    forall r: bytes, st: State, c: nat {:trigger replay(frame(st.p, r)[..c], st)} |
      Between(st) && 0 < |r| <= limit && c < |frame(st.p, r)| ::
      StopsBefore(replay(frame(st.p, r)[..c], st), st, c)
  }

  ghost predicate Recovers(replay: Replayer, frame: Framer, limit: nat) {
    && (forall st: State :: replay([], st) == Ok(st))
    && ReadsWhole(replay, frame, limit) && ReadsPart(replay, frame, limit)
  }

  lemma FormatReadsWhole(next: Reader, crc: Checksum, limit: nat)
    requires ReadsFormat(next, crc)
    ensures ReadsWhole(ReplayerOf(next, limit), FramerOf(crc), limit)
  {
    var replay, frame := ReplayerOf(next, limit), FramerOf(crc);
    forall r: bytes, rest: bytes, st: State | Between(st) && 0 < |r| <= limit
      ensures replay(frame(st.p, r) + rest, st) == replay(rest, AfterRecord(frame, st, r))
    {
      ReadRecord(next, crc, limit, r, rest, st);
    }
  }

  lemma FormatReadsPart(next: Reader, crc: Checksum, limit: nat)
    requires ReadsFormat(next, crc)
    ensures ReadsPart(ReplayerOf(next, limit), FramerOf(crc), limit)
  {
    var replay, frame := ReplayerOf(next, limit), FramerOf(crc);
    forall r: bytes, st: State, c: nat | Between(st) && 0 < |r| <= limit && c < |frame(st.p, r)|
      ensures StopsBefore(replay(frame(st.p, r)[..c], st), st, c)
    {
      ReadPart(next, crc, limit, r, st, c);
    }
  }

  lemma FormatRecovers(crc: Checksum, limit: nat)
    ensures Recovers(ReplayerOf(ReaderOf(crc), limit), FramerOf(crc), limit)
  {
    var next := ReaderOf(crc);
    ReaderReadsFormat(crc);
    FormatReadsWhole(next, crc, limit);
    FormatReadsPart(next, crc, limit);
  }

  /** Exactly the first `k` records end at or before the cut. */
  ghost predicate WholeBefore(frame: Framer, p: nat, rs: seq<bytes>, c: nat, k: nat) {
    && k <= |rs| && c <= |LogFrom(frame, p, rs)|
    && |LogFrom(frame, p, rs[..k])| <= c
    && (k < |rs| ==> c < |LogFrom(frame, p, rs[..k + 1])|)
  }

  /** The replay found the given records and can be extended after them. */
  ghost predicate Found(x: Result<State>, records: seq<bytes>, end: nat, cut: nat) {
    && x.Ok? && x.value.records == records
    && Extends(end, ValidBytes(x.value)) && ValidBytes(x.value) <= cut
  }

  /** A log cut at `c` replays to exactly the records that end at or before the cut. */
  ghost predicate CutAt(replay: Replayer, frame: Framer, rs: seq<bytes>, st: State, c: nat, k: nat) {
    && WholeBefore(frame, st.p, rs, c, k)
    && Found(replay(LogFrom(frame, st.p, rs)[..c], st), st.records + rs[..k],
             st.p + |LogFrom(frame, st.p, rs[..k])|, st.p + c)
  }

  lemma {:induction false} ReplayCutLog(replay: Replayer, frame: Framer, limit: nat, rs: seq<bytes>, st: State, c: nat)
      returns (k: nat)
    requires Recovers(replay, frame, limit) && Acceptable(limit, rs) && Between(st) && c <= |LogFrom(frame, st.p, rs)|
    ensures CutAt(replay, frame, rs, st, c, k)
    decreases |rs|
  {
    if rs == [] {
      k := 0;
      assert LogFrom(frame, st.p, rs)[..c] == [] && st.records + rs[..0] == st.records;
    } else {
      assert rs[0] in rs;
      var w := frame(st.p, rs[0]);
      if c < |w| {
        k := 0;
        CutFirst(replay, frame, limit, rs, st, c);
      } else {
        assert Acceptable(limit, rs[1..]);
        var j := ReplayCutLog(replay, frame, limit, rs[1..], AfterRecord(frame, st, rs[0]), c - |w|);
        k := j + 1;
        CutLater(replay, frame, limit, rs, st, c, j);
      }
    }
  }

  lemma LogPrefix(frame: Framer, p: nat, rs: seq<bytes>, k: nat)
    requires 0 < k <= |rs|
    ensures LogFrom(frame, p, rs[..k]) == frame(p, rs[0]) + LogFrom(frame, p + |frame(p, rs[0])|, rs[1..][..k - 1])
  {
    assert rs[..k][0] == rs[0] && rs[..k][1..] == rs[1..][..k - 1];
  }

  lemma CutFirst(replay: Replayer, frame: Framer, limit: nat, rs: seq<bytes>, st: State, c: nat)
    requires Recovers(replay, frame, limit) && rs != [] && 0 < |rs[0]| <= limit && Between(st)
    requires c < |frame(st.p, rs[0])|
    ensures CutAt(replay, frame, rs, st, c, 0)
  {
    var w := frame(st.p, rs[0]);
    assert LogFrom(frame, st.p, rs)[..c] == w[..c];
    assert rs[..0] == [] && st.records + [] == st.records;
    LogPrefix(frame, st.p, rs, 1);
  }

  lemma CutTail(frame: Framer, p: nat, rs: seq<bytes>, c: nat)
    requires rs != [] && |frame(p, rs[0])| <= c <= |LogFrom(frame, p, rs)|
    ensures var w := frame(p, rs[0]);
            && c - |w| <= |LogFrom(frame, p + |w|, rs[1..])|
            && LogFrom(frame, p, rs)[..c] == w + LogFrom(frame, p + |w|, rs[1..])[..c - |w|]
  {
    var w := frame(p, rs[0]);
    TakeConcat(w, LogFrom(frame, p + |w|, rs[1..]), c);
  }

  lemma WholeLater(frame: Framer, p: nat, rs: seq<bytes>, c: nat, j: nat)
    requires rs != [] && |frame(p, rs[0])| <= c
    requires WholeBefore(frame, p + |frame(p, rs[0])|, rs[1..], c - |frame(p, rs[0])|, j)
    ensures WholeBefore(frame, p, rs, c, j + 1)
    ensures p + |LogFrom(frame, p, rs[..j + 1])|
         == p + |frame(p, rs[0])| + |LogFrom(frame, p + |frame(p, rs[0])|, rs[1..][..j])|
  {
    LogPrefix(frame, p, rs, j + 1);
    if j + 1 < |rs| {
      LogPrefix(frame, p, rs, j + 2);
    }
  }

  lemma RecordsLater(records: seq<bytes>, rs: seq<bytes>, j: nat)
    requires rs != [] && j < |rs|
    ensures (records + [rs[0]]) + rs[1..][..j] == records + rs[..j + 1]
  {
    assert rs[..j + 1] == [rs[0]] + rs[1..][..j];
  }

  /** The whole record in front of a cut is read first. */
  lemma CutLater(replay: Replayer, frame: Framer, limit: nat, rs: seq<bytes>, st: State, c: nat, j: nat)
    requires Recovers(replay, frame, limit) && rs != [] && 0 < |rs[0]| <= limit && Between(st)
    requires |frame(st.p, rs[0])| <= c <= |LogFrom(frame, st.p, rs)|
    requires CutAt(replay, frame, rs[1..], AfterRecord(frame, st, rs[0]), c - |frame(st.p, rs[0])|, j)
    ensures CutAt(replay, frame, rs, st, c, j + 1)
  {
    CutTail(frame, st.p, rs, c);
    WholeLater(frame, st.p, rs, c, j);
    RecordsLater(st.records, rs, j);
  }

  // ----- Cut and extend -----

  /** Padding written before the next record may already be there. */
  ghost predicate Pads(frame: Framer) {
    forall p: nat, r: bytes {:trigger frame(p, r)} | r != [] && InTrailer(p) ::
      frame(p, r) == Zeros(BLOCK - p % BLOCK) + frame(p + (BLOCK - p % BLOCK), r)
  }

  lemma FormatPads(crc: Checksum)
    ensures Pads(FramerOf(crc))
  {
    var frame := FramerOf(crc);
    forall p: nat, r: bytes | r != [] && InTrailer(p)
      ensures frame(p, r) == Zeros(BLOCK - p % BLOCK) + frame(p + (BLOCK - p % BLOCK), r)
    {
      PiecesStep(p, r, true);
      var more := Pieces(0, r, true);
      assert ([Skip(BLOCK - p % BLOCK)] + more)[1..] == more;
    }
  }

  /** The manifest and the write-ahead log after any tear: exactly the records that end at or before the cut are
      replayed, and cutting at the reported length and appending any record gives the log of those plus the new one. */
  lemma TornLog(crc: Checksum, limit: nat, rs: seq<bytes>, c: nat, r: bytes) returns (k: nat)
    requires Acceptable(limit, rs) && c <= |Log(crc, rs)| && r != []
    ensures k <= |rs| && |Log(crc, rs[..k])| <= c && (k < |rs| ==> c < |Log(crc, rs[..k + 1])|)
    ensures var x := Replay(ReaderOf(crc), limit, Log(crc, rs)[..c], START);
            && x.Ok? && x.value.records == rs[..k] && ValidBytes(x.value) <= c
            && Log(crc, rs)[..ValidBytes(x.value)] + FramerOf(crc)(ValidBytes(x.value), r) == Log(crc, rs[..k] + [r])
  {
    var replay, frame := ReplayerOf(ReaderOf(crc), limit), FramerOf(crc);
    FormatRecovers(crc, limit);
    k := ReplayCutLog(replay, frame, limit, rs, START, c);
    var v := ValidBytes(replay(Log(crc, rs)[..c], START).value);
    assert [] + rs[..k] == rs[..k];
    FormatPads(crc);
    Resumes(frame, rs, k, v, r);
  }

  lemma LogSplit(frame: Framer, p: nat, rs: seq<bytes>, k: nat)
    requires k <= |rs|
    ensures var l := LogFrom(frame, p, rs[..k]);
            LogFrom(frame, p, rs) == l + LogFrom(frame, p + |l|, rs[k..])
    decreases |rs|
  {
    if k == 0 {
      assert rs[..0] == [] && rs[0..] == rs;
    } else {
      var w := frame(p, rs[0]);
      LogSplit(frame, p + |w|, rs[1..], k - 1);
      LogPrefix(frame, p, rs, k);
      assert rs[1..][k - 1..] == rs[k..];
      var l := LogFrom(frame, p + |w|, rs[1..][..k - 1]);
      ConcatAssociative(w, l, LogFrom(frame, p + |w| + |l|, rs[k..]));
    }
  }

  lemma Resumes(frame: Framer, rs: seq<bytes>, k: nat, v: nat, r: bytes)
    requires Pads(frame) && k <= |rs| && r != [] && (forall x | x in rs :: x != []) && v <= |LogFrom(frame, 0, rs)|
    requires Extends(|LogFrom(frame, 0, rs[..k])|, v)
    ensures LogFrom(frame, 0, rs)[..v] + frame(v, r) == LogFrom(frame, 0, rs[..k] + [r])
  {
    LogSnoc(frame, 0, rs[..k], r);
    LogSplit(frame, 0, rs, k);
    assert forall x | x in rs[k..] :: x in rs;
    ResumesAfter(frame, LogFrom(frame, 0, rs[..k]), rs[k..], v, r);
  }

  lemma ResumesAfter(frame: Framer, l: bytes, rest: seq<bytes>, v: nat, r: bytes)
    requires Pads(frame) && r != [] && Extends(|l|, v)
    requires (forall x | x in rest :: x != []) && v <= |l + LogFrom(frame, |l|, rest)|
    ensures (l + LogFrom(frame, |l|, rest))[..v] + frame(v, r) == l + frame(|l|, r)
  {
    if v == |l| {
      ConcatParts(l, LogFrom(frame, |l|, rest));
    } else {
      ResumesPadded(frame, l, rest, v, r);
    }
  }

  lemma ResumesPadded(frame: Framer, l: bytes, rest: seq<bytes>, v: nat, r: bytes)
    requires Pads(frame) && r != [] && InTrailer(|l|) && v == |l| + (BLOCK - |l| % BLOCK)
    requires (forall x | x in rest :: x != []) && v <= |l + LogFrom(frame, |l|, rest)|
    ensures (l + LogFrom(frame, |l|, rest))[..v] + frame(v, r) == l + frame(|l|, r)
  {
    assert rest != [] && rest[0] in rest;
    var z := Zeros(BLOCK - |l| % BLOCK);
    var a := frame(|l|, rest[0]);
    assert a == z + frame(v, rest[0]) && frame(|l|, r) == z + frame(v, r);
    CutPadding(l, z, frame(v, rest[0]), LogFrom(frame, |l| + |a|, rest[1..]), frame(v, r));
  }

  lemma CutPadding(l: bytes, z: bytes, a: bytes, more: bytes, b: bytes)
    ensures (l + ((z + a) + more))[..|l| + |z|] + b == l + (z + b)
  {
    assert (l + ((z + a) + more))[..|l| + |z|] == l + z;
  }
}
