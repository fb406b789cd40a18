/** Reading one sorted table through its block index: separators, the block a lookup is routed to, and exactly
    which lookups the routing answers correctly. */
module Routing {
  import opened Bytes
  import opened InternalKeys
  import opened Mvcc

  // ----- Separators -----

  /** A short key from `start` up to, but excluding, `limit`. */
  function ShortestSeparator(start: bytes, limit: bytes): bytes {
    var k := Shared(start, limit);
    if k < |start| && k < |limit| && start[k] < 0xff && start[k] + 1 < limit[k]
    then start[..k] + [start[k] + 1]
    else start
  }

  predicate Shortens(start: bytes, limit: bytes) {
    var k := Shared(start, limit);
    k < |start| && k < |limit| && Gap(start[k], limit[k])
  }

  predicate Gap(a: int, b: int) {
    a + 1 < b
  }

  /** A separator lies at or above the keys on its left and below those on its right. */
  lemma SeparatorBetween(start: bytes, limit: bytes)
    requires Less(start, limit)
    ensures LessEq(start, ShortestSeparator(start, limit)) && Less(ShortestSeparator(start, limit), limit)
  {
    var sep := ShortestSeparator(start, limit);
    if Shortens(start, limit) {
      var k := Shared(start, limit);
      assert sep[..k] == start[..k] == limit[..k];
      LessAt(start, sep, k);
      LessAt(sep, limit, k);
    }
  }

  /** A key between two others has their common prefix. */
  lemma BetweenShares(start: bytes, seek: bytes, limit: bytes, k: nat)
    requires Less(start, seek) && LessEq(seek, limit)
    requires k < |start| && k <= |limit| && start[..k] == limit[..k]
    ensures k < |seek| && seek[..k] == start[..k] && start[k] <= seek[k]
  {
    var m := Shared(start, seek);
    LessByShared(start, seek);
    if m < k {
      assert limit[m] == limit[..k][m] == start[..k][m] == start[m];
      assert limit[..m] == limit[..k][..m] == start[..k][..m] == start[..m];
      LessAt(seek, limit, m);
    } else {
      assert seek[..k] == seek[..m][..k] == start[..m][..k] == start[..k];
      if m > k {
        assert seek[k] == seek[..m][k] == start[..m][k] == start[k];
      }
    }
  }

  /** Against a key between `start` and `limit`, a separator is at or above it only when it was shortened
      and the key agrees with `start` up to and including the byte that was raised. */
  lemma SeparatorAbove(start: bytes, seek: bytes, limit: bytes)
    requires Less(start, seek) && LessEq(seek, limit) && |seek| > Shared(start, limit) + 1
    ensures !Less(ShortestSeparator(start, limit), seek) <==>
            Shortens(start, limit) && seek[Shared(start, limit)] == start[Shared(start, limit)]
  {
    if Shortens(start, limit) {
      var k := Shared(start, limit);
      var sep := ShortestSeparator(start, limit);
      BetweenShares(start, seek, limit, k);
      assert sep[..k] == start[..k] == seek[..k];
      if seek[k] == start[k] + 1 {
        assert seek[..k + 1] == sep[..k + 1];
        LessAt(sep, seek, k + 1);
      } else {
        LessAt(sep, seek, k);
      }
    }
  }

  // ----- Keys of one user key -----

  function Seek(user: bytes, at: u64): bytes {
    Encode(InternalKey(user, at, Deletion))
  }

  /** The stored, order-reversing form of a sequence. */
  function Reversed(n: u64): (r: bytes)
    ensures |r| == 8
  {
    BigEndian(U64_MAX - n, 8)
  }

  /** Raising the first byte in which `newer` and `older` differ passes over sequence `at`. */
  predicate Skips(newer: u64, older: u64, at: u64) {
    var k := Shared(Reversed(newer), Reversed(older));
    k < 8 && Gap(Reversed(newer)[k], Reversed(older)[k]) && Reversed(at)[..k + 1] == Reversed(newer)[..k + 1]
  }

  lemma SharedPrefix(p: bytes, x: bytes, y: bytes)
    ensures Shared(p + x, p + y) == |p| + Shared(x, y)
  {
    var k := Shared(x, y);
    assert (p + x)[..|p| + k] == p + x[..k];
    assert (p + y)[..|p| + k] == p + y[..k];
    SharedUnique(p + x, p + y, |p| + k);
  }

  lemma SharedHeads(x: bytes, y: bytes, a: bytes, b: bytes)
    requires |x| == |y| && x != y
    ensures Shared(x + a, y + b) == Shared(x, y) < |x|
  {
    var k := Shared(x, y);
    assert x[..|x|] == x && y[..|y|] == y;
    assert (x + a)[..k] == x[..k] && (y + b)[..k] == y[..k];
    SharedUnique(x + a, y + b, k);
  }

  function Front(user: bytes): bytes {
    Escape(user) + [0, 0]
  }

  lemma EncodeParts(k: InternalKey)
    ensures Encode(k) == Front(k.user) + (Reversed(k.seqno) + [KindByte(k.kind)])
  {
  }

  lemma ReversedInjective(m: u64, n: u64)
    requires m != n
    ensures Reversed(m) != Reversed(n)
  {
    Pow256Values();
    BigEndianRoundTrip(U64_MAX - m, 8);
    BigEndianRoundTrip(U64_MAX - n, 8);
  }

  /** Where two versions of one user key first differ. */
  lemma VersionsDiffer(a: InternalKey, b: InternalKey)
    requires a.user == b.user && a.seqno != b.seqno
    ensures var k := Shared(Reversed(a.seqno), Reversed(b.seqno));
            var n := |Front(a.user)| + k;
            && k < 8 && Shared(Encode(a), Encode(b)) == n < |Encode(a)| && n < |Encode(b)|
            && Encode(a)[n] == Reversed(a.seqno)[k] && Encode(b)[n] == Reversed(b.seqno)[k]
  {
    var p, x, y := Front(a.user), Reversed(a.seqno), Reversed(b.seqno);
    ReversedInjective(a.seqno, b.seqno);
    SharedHeads(x, y, [KindByte(a.kind)], [KindByte(b.kind)]);
    SharedPrefix(p, x + [KindByte(a.kind)], y + [KindByte(b.kind)]);
    EncodeParts(a);
    EncodeParts(b);
  }

  lemma SeekByte(user: bytes, at: u64, k: nat)
    requires k < 8
    ensures |Seek(user, at)| == |Front(user)| + 9 && Seek(user, at)[|Front(user)| + k] == Reversed(at)[k]
  {
    EncodeParts(InternalKey(user, at, Deletion));
  }

  /** Between two versions of one key, the separator passes over a read exactly when `Skips` says so. */
  lemma SkipsIff(last: InternalKey, first: InternalKey, at: u64)
    requires last.user == first.user && last.seqno > at >= first.seqno
    ensures !Less(ShortestSeparator(Encode(last), Encode(first)), Seek(first.user, at))
       <==> Skips(last.seqno, first.seqno, at)
  {
    var a, s, b := Encode(last), Seek(first.user, at), Encode(first);
    var k := Shared(Reversed(last.seqno), Reversed(first.seqno));
    EncodingOrder(last, InternalKey(first.user, at, Deletion));
    SeekBelow(first, at);
    VersionsDiffer(last, first);
    SeekByte(first.user, at, k);
    SeparatorAbove(a, s, b);
    ReversedBetween(last.seqno, at, first.seqno, k);
  }

  lemma ReversedBetween(newer: u64, at: u64, older: u64, k: nat)
    requires newer > at >= older && k == Shared(Reversed(newer), Reversed(older)) < 8
    ensures Reversed(at)[..k] == Reversed(newer)[..k]
    ensures Reversed(at)[..k + 1] == Reversed(newer)[..k + 1] <==> Reversed(at)[k] == Reversed(newer)[k]
  {
    var x, y, z := Reversed(newer), Reversed(at), Reversed(older);
    Pow256Values();
    BigEndianOrder(U64_MAX - newer, U64_MAX - at, 8);
    if at != older {
      BigEndianOrder(U64_MAX - at, U64_MAX - older, 8);
    }
    BetweenShares(x, y, z, k);
    assert x[..k + 1] == x[..k] + [x[k]] && y[..k + 1] == y[..k] + [y[k]];
  }

  lemma SeekBelow(k: InternalKey, at: u64)
    requires k.seqno <= at
    ensures LessEq(Seek(k.user, at), Encode(k))
  {
    var seek := InternalKey(k.user, at, Deletion);
    if seek != k {
      EncodingOrder(seek, k);
    }
  }

  /** After the last version of a smaller user key, the separator never passes over a read. */
  lemma OtherKeyRoutes(last: InternalKey, first: InternalKey, at: u64)
    requires Less(last.user, first.user) && first.seqno <= at
    ensures Less(ShortestSeparator(Encode(last), Encode(first)), Seek(first.user, at))
  {
    var a, s, b := Encode(last), Seek(first.user, at), Encode(first);
    var p := Front(first.user);
    var k := Shared(a, b);
    LessIrreflexive(last.user);
    EncodingOrder(last, InternalKey(first.user, at, Deletion));
    SeekBelow(first, at);
    FrontsDiffer(last, first);
    EncodeParts(first);
    EncodeParts(InternalKey(first.user, at, Deletion));
    LessByShared(a, b);
    assert s[k] == p[k] == b[k];
    SeparatorAbove(a, s, b);
  }

  lemma FrontsDiffer(last: InternalKey, first: InternalKey)
    requires last.user != first.user
    ensures Shared(Encode(last), Encode(first)) < |Front(first.user)|
  {
    var a, b := Encode(last), Encode(first);
    var p := Front(first.user);
    var k := Shared(a, b);
    if k >= |p| {
      assert a[..|p|] == a[..k][..|p|] == b[..k][..|p|] == b[..|p|] == p;
      assert a == Terminated(first.user, a[|p|..]) && a == Terminated(last.user, Trailer(last.seqno, last.kind));
      ParseUserOfEscape(first.user, a[|p|..]);
      ParseUserOfEscape(last.user, Trailer(last.seqno, last.kind));
    }
  }

  // ----- A table cut into blocks -----

  type Block = s: seq<Entry> | s != [] witness [Entry([], 0, Tombstone)]

  /** A sorted table, cut into nonempty blocks. */
  ghost predicate Cut(blocks: seq<Block>) {
    Sorted(Join(blocks))
  }

  function Last(block: Block): Entry {
    block[|block| - 1]
  }

  function KeyBytes(e: Entry): bytes {
    Encode(Key(e))
  }

  /** The index key of block `i`. */
  function Separator(blocks: seq<Block>, i: nat): bytes
    requires i < |blocks|
  {
    if i + 1 < |blocks| then ShortestSeparator(KeyBytes(Last(blocks[i])), KeyBytes(blocks[i + 1][0]))
    else KeyBytes(Last(blocks[i]))
  }

  /** The index keys of a table. */
  function Separators(blocks: seq<Block>): (r: seq<bytes>)
    ensures |r| == |blocks|
  {
    seq(|blocks|, i requires 0 <= i < |blocks| => Separator(blocks, i))
  }

  /** The first of the index keys, from `i` on, that is at or above the seek key. */
  function Route(keys: seq<bytes>, seek: bytes, i: nat): (r: nat)
    requires i <= |keys|
    ensures i <= r <= |keys|
    ensures forall j | i <= j < r :: Less(keys[j], seek)
    ensures r < |keys| ==> !Less(keys[r], seek)
    decreases |keys| - i
  {
    if i == |keys| || !Less(keys[i], seek) then i else Route(keys, seek, i + 1)
  }

  /** The first entry of a block at or above the seek key. */
  function LowerIn(block: seq<Entry>, seek: bytes, j: nat): (r: nat)
    requires j <= |block|
    ensures j <= r <= |block|
    ensures forall i | j <= i < r :: Less(KeyBytes(block[i]), seek)
    ensures r < |block| ==> !Less(KeyBytes(block[r]), seek)
    decreases |block| - j
  {
    if j == |block| || !Less(KeyBytes(block[j]), seek) then j else LowerIn(block, seek, j + 1)
  }

  function Match(block: seq<Entry>, j: nat, user: bytes, at: u64): Option<Entry> {
    if j < |block| && block[j].user == user && block[j].seqno <= at then Some(block[j]) else None
  }

  /** What a lookup finds: one block is chosen by the index and searched. */
  function Lookup(blocks: seq<Block>, user: bytes, at: u64): Option<Entry>
  {
    var i := Route(Separators(blocks), Seek(user, at), 0);
    if i == |blocks| then None else Match(blocks[i], LowerIn(blocks[i], Seek(user, at), 0), user, at)
  }

  /** A boundary inside the versions of `user`, at which the separator passes over the read. */
  ghost predicate SkippedAt(blocks: seq<Block>, user: bytes, at: u64, i: nat)
    requires i + 1 < |blocks|
  {
    var newer, older := Last(blocks[i]), blocks[i + 1][0];
    newer.user == older.user == user && newer.seqno > at >= older.seqno && Skips(newer.seqno, older.seqno, at)
  }

  ghost predicate Skipped(blocks: seq<Block>, user: bytes, at: u64)
  {
    exists i | 0 <= i < |blocks| - 1 :: SkippedAt(blocks, user, at, i)
  }

  lemma EntryAt(blocks: seq<Block>, i: nat, j: nat)
    requires i < |blocks| && j < |blocks[i]|
    ensures At(blocks, i) + j < |Join(blocks)| && Join(blocks)[At(blocks, i) + j] == blocks[i][j]
    ensures At(blocks, i + 1) == At(blocks, i) + |blocks[i]|
  {
    JoinAt(blocks, i);
    var t := Join(blocks)[At(blocks, i)..At(blocks, i + 1)];
    assert t[j] == blocks[i][j];
  }

  /** Everything before an entry that precedes the seek position precedes it too. */
  lemma AllBefore(t: seq<Entry>, g: nat, user: bytes, at: u64)
    requires Sorted(t) && g <= |t| && (g > 0 ==> BeforeSeek(t[g - 1], user, at))
    ensures forall j | 0 <= j < g :: BeforeSeek(t[j], user, at)
  {
    forall j | 0 <= j < g ensures BeforeSeek(t[j], user, at) {
      if j < g - 1 {
        var a, b := t[j], t[g - 1];
        assert Before(a, b);
        if Less(a.user, b.user) && Less(b.user, user) {
          LessTransitive(a.user, b.user, user);
        }
      }
    }
  }

  lemma Neighbours(blocks: seq<Block>, i: nat)
    requires Cut(blocks) && i + 1 < |blocks|
    ensures Before(Last(blocks[i]), blocks[i + 1][0])
    ensures LessEq(KeyBytes(Last(blocks[i])), Separator(blocks, i))
    ensures Less(Separator(blocks, i), KeyBytes(blocks[i + 1][0]))
  {
    var a, b := Last(blocks[i]), blocks[i + 1][0];
    EntryAt(blocks, i, |blocks[i]| - 1);
    EntryAt(blocks, i + 1, 0);
    assert Before(Join(blocks)[At(blocks, i) + |blocks[i]| - 1], Join(blocks)[At(blocks, i + 1)]);
    BeforeIsByteOrder(a, b);
    SeparatorBetween(KeyBytes(a), KeyBytes(b));
  }

  /** The last entry of every block passed over by the index search precedes the seek position. */
  lemma PassedOver(blocks: seq<Block>, user: bytes, at: u64, i: nat)
    requires Cut(blocks) && i < |blocks| && Less(Separator(blocks, i), Seek(user, at))
    ensures BeforeSeek(Last(blocks[i]), user, at)
  {
    var e, seek := Last(blocks[i]), Seek(user, at);
    if i + 1 < |blocks| {
      Neighbours(blocks, i);
      if KeyBytes(e) != Separator(blocks, i) {
        LessTransitive(KeyBytes(e), Separator(blocks, i), seek);
      }
    }
    SeekIsByteOrder(e, user, at);
  }

  /** The entry just before position `(i, j)` precedes the seek position. */
  predicate PrecededBy(blocks: seq<Block>, user: bytes, at: u64, i: nat, j: nat)
    requires i < |blocks| && j < |blocks[i]|
  {
    if j > 0 then BeforeSeek(blocks[i][j - 1], user, at)
    else i > 0 ==> BeforeSeek(Last(blocks[i - 1]), user, at)
  }

  lemma PrecedingEntry(blocks: seq<Block>, user: bytes, at: u64, i: nat, j: nat)
    requires i < |blocks| && j < |blocks[i]| && PrecededBy(blocks, user, at, i, j)
    ensures var g := At(blocks, i) + j;
            g < |Join(blocks)| && Join(blocks)[g] == blocks[i][j]
            && (g > 0 ==> BeforeSeek(Join(blocks)[g - 1], user, at))
  {
    EntryAt(blocks, i, j);
    if j > 0 {
      EntryAt(blocks, i, j - 1);
    } else if i > 0 {
      EntryAt(blocks, i - 1, |blocks[i - 1]| - 1);
    } else {
      JoinEnds(blocks);
    }
  }

  /** The first entry at or above the seek key, wherever the blocks are cut, answers for the table. */
  lemma BoundAt(blocks: seq<Block>, user: bytes, at: u64, i: nat, j: nat)
    requires Cut(blocks) && i < |blocks| && j < |blocks[i]| && PrecededBy(blocks, user, at, i, j)
    requires !BeforeSeek(blocks[i][j], user, at)
    ensures Newest(Entries(Join(blocks)), user, at) ==
            if blocks[i][j].user == user then Some(blocks[i][j]) else None
  {
    var t, g := Join(blocks), At(blocks, i) + j;
    PrecedingEntry(blocks, user, at, i, j);
    AllBefore(t, g, user, at);
    LowerBoundIsNewest(t, user, at, g);
  }

  lemma AllBelow(blocks: seq<Block>, user: bytes, at: u64)
    requires Cut(blocks) && (blocks != [] ==> BeforeSeek(Last(blocks[|blocks| - 1]), user, at))
    ensures Newest(Entries(Join(blocks)), user, at) == None
  {
    var t := Join(blocks);
    if blocks != [] {
      LastEntry(blocks);
    }
    AllBefore(t, |t|, user, at);
    LowerBoundIsNewest(t, user, at, |t|);
  }

  lemma LastEntry(blocks: seq<Block>)
    requires blocks != []
    ensures Join(blocks) != [] && Join(blocks)[|Join(blocks)| - 1] == Last(blocks[|blocks| - 1])
  {
    var n := |blocks| - 1;
    EntryAt(blocks, n, |blocks[n]| - 1);
    JoinEnds(blocks);
  }

  /** When the chosen block holds an entry at or above the seek key, the lookup is the table's lower bound. */
  lemma FoundInBlock(blocks: seq<Block>, user: bytes, at: u64, i: nat, j: nat)
    requires Cut(blocks) && i == Route(Separators(blocks), Seek(user, at), 0) < |blocks|
    requires j == LowerIn(blocks[i], Seek(user, at), 0) < |blocks[i]|
    ensures Lookup(blocks, user, at) == Newest(Entries(Join(blocks)), user, at)
  {
    SeekIsByteOrder(blocks[i][j], user, at);
    if j > 0 {
      SeekIsByteOrder(blocks[i][j - 1], user, at);
    } else if i > 0 {
      assert Less(Separators(blocks)[i - 1], Seek(user, at));
      PassedOver(blocks, user, at, i - 1);
    }
    BoundAt(blocks, user, at, i, j);
  }

  /** When no block is chosen, nothing is at or above the seek key. */
  lemma NothingFound(blocks: seq<Block>, user: bytes, at: u64)
    requires Cut(blocks) && Route(Separators(blocks), Seek(user, at), 0) == |blocks|
    ensures Lookup(blocks, user, at) == Newest(Entries(Join(blocks)), user, at)
  {
    var n := |blocks|;
    if n > 0 {
      assert Less(Separators(blocks)[n - 1], Seek(user, at));
      PassedOver(blocks, user, at, n - 1);
    }
    AllBelow(blocks, user, at);
  }

  lemma SeparatorDecides(blocks: seq<Block>, user: bytes, at: u64, i: nat)
    requires Cut(blocks) && i < |blocks| && !Less(Separator(blocks, i), Seek(user, at))
    requires BeforeSeek(Last(blocks[i]), user, at)
    ensures i + 1 < |blocks| && !BeforeSeek(blocks[i + 1][0], user, at)
  {
    SeekIsByteOrder(Last(blocks[i]), user, at);
    Neighbours(blocks, i);
    var e, sep, seek := blocks[i + 1][0], Separator(blocks, i), Seek(user, at);
    SeekIsByteOrder(e, user, at);
    LessTotal(seek, sep);
    LessTotal(seek, KeyBytes(e));
    if seek != sep {
      LessTransitive(seek, sep, KeyBytes(e));
    }
  }

  /** When the chosen block lies wholly below the seek key, the table's lower bound opens the next block. */
  lemma PastBlock(blocks: seq<Block>, user: bytes, at: u64, i: nat)
    requires Cut(blocks) && i == Route(Separators(blocks), Seek(user, at), 0) < |blocks|
    requires LowerIn(blocks[i], Seek(user, at), 0) == |blocks[i]|
    ensures i + 1 < |blocks| && BeforeSeek(Last(blocks[i]), user, at) && !BeforeSeek(blocks[i + 1][0], user, at)
    ensures Lookup(blocks, user, at) == None
    ensures var e := blocks[i + 1][0];
            Newest(Entries(Join(blocks)), user, at) == if e.user == user then Some(e) else None
  {
    assert Less(KeyBytes(Last(blocks[i])), Seek(user, at));
    SeekIsByteOrder(Last(blocks[i]), user, at);
    assert Separators(blocks)[i] == Separator(blocks, i);
    SeparatorDecides(blocks, user, at, i);
    BoundAt(blocks, user, at, i + 1, 0);
  }

  /** A boundary is skipped exactly when the index search stops at its left block, below the read. */
  lemma SkippedIff(blocks: seq<Block>, user: bytes, at: u64, i: nat)
    requires Cut(blocks) && i + 1 < |blocks|
    requires BeforeSeek(Last(blocks[i]), user, at) && !BeforeSeek(blocks[i + 1][0], user, at)
    requires blocks[i + 1][0].user == user
    ensures !Less(Separator(blocks, i), Seek(user, at)) <==> SkippedAt(blocks, user, at, i)
  {
    var last, first := Key(Last(blocks[i])), Key(blocks[i + 1][0]);
    if last.user == user {
      SkipsIff(last, first, at);
    } else {
      OtherKeyRoutes(last, first, at);
    }
  }

  /** A lookup through the index returns the newest visible version if and only if no boundary is skipped. */
  lemma LookupExact(blocks: seq<Block>, user: bytes, at: u64)
    requires Cut(blocks)
    ensures Lookup(blocks, user, at) == Newest(Entries(Join(blocks)), user, at) <==> !Skipped(blocks, user, at)
  {
    var i := Route(Separators(blocks), Seek(user, at), 0);
    if k :| 0 <= k < |blocks| - 1 && SkippedAt(blocks, user, at, k) {
      SkippedMisses(blocks, user, at, k);
    } else if i == |blocks| {
      NothingFound(blocks, user, at);
    } else {
      var j := LowerIn(blocks[i], Seek(user, at), 0);
      if j < |blocks[i]| {
        FoundInBlock(blocks, user, at, i, j);
      } else {
        PastBlock(blocks, user, at, i);
        if blocks[i + 1][0].user == user {
          SkippedIff(blocks, user, at, i);
        }
      }
    }
  }

  /** The index search stops at a skipped boundary: every separator before it is smaller still. */
  lemma {:induction false} EarlierSeparators(blocks: seq<Block>, i: nat, k: nat)
    requires Cut(blocks) && i < k < |blocks|
    ensures Less(Separator(blocks, i), KeyBytes(Last(blocks[k])))
  {
    var a, b := blocks[i + 1][0], Last(blocks[k]);
    Neighbours(blocks, i);
    FirstToLast(blocks, i + 1, k);
    if a != b {
      BeforeIsByteOrder(a, b);
      LessTransitive(Separator(blocks, i), KeyBytes(a), KeyBytes(b));
    }
  }

  lemma FirstToLast(blocks: seq<Block>, i: nat, k: nat)
    requires Cut(blocks) && i <= k < |blocks|
    ensures blocks[i][0] == Last(blocks[k]) || Before(blocks[i][0], Last(blocks[k]))
  {
    var x, y := At(blocks, i), At(blocks, k) + |blocks[k]| - 1;
    EntryAt(blocks, i, 0);
    EntryAt(blocks, k, |blocks[k]| - 1);
    AtMonotone(blocks, i, k);
    assert x < y ==> Before(Join(blocks)[x], Join(blocks)[y]);
  }

  lemma {:induction false} AtMonotone(blocks: seq<Block>, i: nat, k: nat)
    requires i <= k <= |blocks|
    ensures At(blocks, i) <= At(blocks, k)
    decreases k - i
  {
    if i < k {
      JoinStep(blocks, k - 1);
      AtMonotone(blocks, i, k - 1);
    }
  }

  lemma SkippedRoute(blocks: seq<Block>, user: bytes, at: u64, k: nat)
    requires Cut(blocks) && k + 1 < |blocks| && SkippedAt(blocks, user, at, k)
    ensures Route(Separators(blocks), Seek(user, at), 0) == k
  {
    var seek, last := Seek(user, at), Last(blocks[k]);
    LessIrreflexive(user);
    SkippedIff(blocks, user, at, k);
    SeekIsByteOrder(last, user, at);
    forall i | 0 <= i < k ensures Less(Separators(blocks)[i], seek) {
      EarlierSeparators(blocks, i, k);
      LessTransitive(Separator(blocks, i), KeyBytes(last), seek);
    }
    assert !Less(Separators(blocks)[k], seek);
  }

  /** A skipped boundary loses the newest visible version: it opens the next block. */
  lemma SkippedMisses(blocks: seq<Block>, user: bytes, at: u64, k: nat)
    requires Cut(blocks) && k + 1 < |blocks| && SkippedAt(blocks, user, at, k)
    ensures Lookup(blocks, user, at) == None
    ensures Newest(Entries(Join(blocks)), user, at) == Some(blocks[k + 1][0])
  {
    SkippedRoute(blocks, user, at, k);
    var j := LowerIn(blocks[k], Seek(user, at), 0);
    BlockBelow(blocks, user, at, k);
    PastBlock(blocks, user, at, k);
  }

  lemma BlockBelow(blocks: seq<Block>, user: bytes, at: u64, k: nat)
    requires Cut(blocks) && k < |blocks| && BeforeSeek(Last(blocks[k]), user, at)
    ensures LowerIn(blocks[k], Seek(user, at), 0) == |blocks[k]|
  {
    var j, n := LowerIn(blocks[k], Seek(user, at), 0), |blocks[k]|;
    EntryAt(blocks, k, n - 1);
    AllBefore(Join(blocks), At(blocks, k) + n, user, at);
    forall i | 0 <= i < n ensures Less(KeyBytes(blocks[k][i]), Seek(user, at)) {
      EntryAt(blocks, k, i);
      SeekIsByteOrder(blocks[k][i], user, at);
    }
  }

  /** A read at or above every stored sequence of its key is never skipped. */
  lemma LatestNeverSkipped(blocks: seq<Block>, user: bytes, at: u64)
    requires forall e | e in Join(blocks) && e.user == user :: e.seqno <= at
    ensures !Skipped(blocks, user, at)
  {
    forall i | 0 <= i < |blocks| - 1 ensures !SkippedAt(blocks, user, at, i) {
      EntryAt(blocks, i, |blocks[i]| - 1);
      assert Last(blocks[i]) in Join(blocks);
    }
  }

  /** No boundary of a single block can be skipped. */
  lemma OneBlockNeverSkipped(block: Block, user: bytes, at: u64)
    ensures !Skipped([block], user, at)
  {
  }

  // ----- A skipped read -----

  lemma LowBytes(n: u64)
    ensures BigEndian(n, 8) == BigEndian(n / 65536, 6) + [n / 256 % 256, n % 256]
  {
    assert BigEndian(n, 8) == BigEndian(n / 256, 7) + [n % 256];
    assert BigEndian(n / 256, 7) == BigEndian(n / 256 / 256, 6) + [n / 256 % 256];
  }

  lemma SkipsSeventh(p: bytes, newer: u64, older: u64, at: u64, x: bytes, y: bytes, z: bytes)
    requires |x| == |y| == |z| == 2 && Gap(x[0], y[0]) && z[0] == x[0]
    requires Reversed(newer) == p + x && Reversed(older) == p + y && Reversed(at) == p + z
    ensures Skips(newer, older, at)
  {
    SharedUnique(x, y, 0);
    SharedPrefix(p, x, y);
    assert (p + x)[..|p| + 1] == p + [x[0]] == (p + z)[..|p| + 1];
  }

  /** Sequence 773 lies between 784 and 5, and raising the seventh stored byte passes over it. */
  lemma SkipsExample()
    ensures Skips(784, 5, 773)
  {
    SkipsBetween(784, 5, 773);
  }

  lemma SkipsBetween(newer: u64, older: u64, at: u64)
    requires 65536 > newer && 65536 > older && 65536 > at
    requires newer / 256 == at / 256 && Gap(older / 256, newer / 256)
    ensures Skips(newer, older, at)
  {
    var p := BigEndian(0xffff_ffff_ffff, 6);
    ReversedSmall(newer, p);
    ReversedSmall(older, p);
    ReversedSmall(at, p);
    SkipsSeventh(p, newer, older, at, LowTwo(newer), LowTwo(older), LowTwo(at));
  }

  function LowTwo(n: u64): bytes
    requires n < 65536
  {
    [255 - n / 256, 255 - n % 256]
  }

  lemma ReversedSmall(n: u64, p: bytes)
    requires n < 65536 && p == BigEndian(0xffff_ffff_ffff, 6)
    ensures Reversed(n) == p + LowTwo(n)
  {
    var r := U64_MAX - n;
    LowBytes(r);
    assert r / 65536 == 0xffff_ffff_ffff && r / 256 % 256 == 255 - n / 256 && r % 256 == 255 - n % 256;
  }

  /** A table with two versions of any key, cut between them, loses the older one to a snapshot at 773. */
  lemma SkippedExample(user: bytes, newer: Record, older: Record)
    ensures var blocks: seq<Block> := [[Entry(user, 784, newer)], [Entry(user, 5, older)]];
            && Cut(blocks) && Lookup(blocks, user, 773) == None
            && Newest(Entries(Join(blocks)), user, 773) == Some(Entry(user, 5, older))
  {
    var a, b := Entry(user, 784, newer), Entry(user, 5, older);
    var blocks: seq<Block> := [[a], [b]];
    JoinStep(blocks, 0);
    JoinStep(blocks, 1);
    JoinEnds(blocks);
    assert blocks[..0] == [] && blocks[..2] == blocks && Join(blocks) == [a, b];
    assert Before(a, b);
    SkipsExample();
    assert SkippedAt(blocks, user, 773, 0);
    SkippedMisses(blocks, user, 773, 0);
  }
}
