/** Building a block: every block the builder finishes is accepted by the checks and holds
    exactly the pairs that were added. */
module BlockBuilding {
  import opened Bytes
  import opened Varints
  import opened Blocks
  import opened BlockChecks

  type Pair = (bytes, bytes)

  function EntryBytes(shared: nat, key: bytes, value: bytes): (r: bytes)
    requires shared <= |key|
    ensures |r| >= 3
  {
    Put(shared) + Put(|key| - shared) + Put(|value|) + key[shared..] + value
  }

  function Words(offsets: seq<nat>): (r: seq<bytes>)
    ensures |r| == |offsets| && forall i | 0 <= i < |r| :: |r[i]| == WORD
  {
    seq(|offsets|, i requires 0 <= i < |offsets| => LittleEndian(offsets[i], WORD))
  }

  function WithFooter(body: bytes, offsets: seq<nat>): bytes {
    body + Join(Words(offsets)) + LittleEndian(|offsets|, WORD)
  }

  /** Numbers that fit the four bytes the footer gives each of them. */
  predicate Small(offsets: seq<nat>) {
    forall k | 0 <= k < |offsets| :: offsets[k] < U32_END
  }

  // ----- Reading one entry back -----

  lemma LengthsBack(take: NumberTaker, s: bytes, a: nat, t: bytes, b: nat, u: bytes, c: nat, rest: bytes)
    requires take(s) == Ok((a, t)) && take(t) == Ok((b, u)) && take(u) == Ok((c, rest))
    ensures TakeLengths(take, s) == Ok((Lengths(a, b, c), rest))
  {
  }

  lemma Assembled(prev: bytes, shared: nat, key: bytes, value: bytes, tail: bytes, end: nat)
    requires shared <= |key| && shared <= |prev| && prev[..shared] == key[..shared]
    requires |key| - shared + |value| + |tail| <= end
    ensures Assemble(Lengths(shared, |key| - shared, |value|), key[shared..] + value + tail, prev, end) ==
            Ok(Item(shared, key, value, end - |tail|))
  {
    var rest := key[shared..] + value + tail;
    assert rest[..|key| - shared] == key[shared..];
    assert rest[|key| - shared..|key| - shared + |value|] == value;
    TakeDrop(key, shared);
  }

  lemma EntryShape(x: bytes, y: bytes, z: bytes, u: bytes, v: bytes, tail: bytes)
    ensures x + y + z + u + v + tail == x + (y + (z + (u + v + tail)))
  {
  }

  lemma LengthsOfEntry(shared: nat, key: bytes, value: bytes, tail: bytes)
    requires shared <= |key| <= U64_MAX && |value| <= U64_MAX
    ensures TakeLengths(TakeNumber, EntryBytes(shared, key, value) + tail) ==
            Ok((Lengths(shared, |key| - shared, |value|), key[shared..] + value + tail))
  {
    var rest := key[shared..] + value + tail;
    var u := Put(|value|) + rest;
    var t := Put(|key| - shared) + u;
    EntryShape(Put(shared), Put(|key| - shared), Put(|value|), key[shared..], value, tail);
    TakeBack(shared, t);
    TakeBack(|key| - shared, u);
    TakeBack(|value|, rest);
    LengthsBack(TakeNumber, Put(shared) + t, shared, t, |key| - shared, u, |value|, rest);
  }

  lemma ReadEntryBack(s: bytes, start: nat, prev: bytes, shared: nat, key: bytes, value: bytes, tail: bytes)
    requires start <= |s| && shared <= |key| && shared <= |prev| && prev[..shared] == key[..shared]
    requires |key| <= U64_MAX && |value| <= U64_MAX
    requires s[start..] == EntryBytes(shared, key, value) + tail
    ensures ReadEntry(s, start, prev) == Ok(Item(shared, key, value, |s| - |tail|))
  {
    LengthsOfEntry(shared, key, value, tail);
    ReadEntryFrom(TakeNumber, s, start, prev, shared, key, value, tail);
  }

  lemma ReadEntryFrom(take: NumberTaker, s: bytes, start: nat, prev: bytes, shared: nat, key: bytes, value: bytes,
                      tail: bytes)
    requires start < |s| && shared <= |key| && shared <= |prev| && prev[..shared] == key[..shared]
    requires |key[shared..] + value + tail| <= |s|
    requires TakeLengths(take, s[start..]) ==
             Ok((Lengths(shared, |key| - shared, |value|), key[shared..] + value + tail))
    ensures ReadEntryWith(take, s, start, prev) == Ok(Item(shared, key, value, |s| - |tail|))
  {
    Assembled(prev, shared, key, value, tail, |s|);
    EntryFrom(take, s, start, prev, Lengths(shared, |key| - shared, |value|), key[shared..] + value + tail);
  }

  lemma EntryFrom(take: NumberTaker, s: bytes, start: nat, prev: bytes, n: Lengths, rest: bytes)
    requires start < |s| && TakeLengths(take, s[start..]) == Ok((n, rest)) && |rest| <= |s|
    ensures ReadEntryWith(take, s, start, prev) == Assemble(n, rest, prev, |s|)
  {
  }

  // ----- Appending does not disturb what is already written -----

  lemma {:induction false} ReadExtends(s: bytes, t: bytes, i: nat)
    requires i <= MAX_VARINT && ReadAt(s, i).Ok?
    ensures ReadAt(s + t, i) == ReadAt(s, i)
    decreases MAX_VARINT - i
  {
    var u := s + t;
    assert u[0] == s[0] && u[1..] == s[1..] + t;
    if s[0] >= 128 {
      ReadExtends(s[1..], t, i + 1);
    }
  }

  lemma TakeExtends(s: bytes, t: bytes)
    requires TakeNumber(s).Ok?
    ensures TakeNumber(s + t) == Ok((TakeNumber(s).value.0, TakeNumber(s).value.1 + t))
  {
    ReadExtends(s, t, 0);
    var k := ReadAt(s, 0).value.1;
    assert (s + t)[k..] == s[k..] + t;
  }

  lemma LengthsExtend(s: bytes, t: bytes)
    requires TakeLengths(TakeNumber, s).Ok?
    ensures TakeLengths(TakeNumber, s + t) ==
            Ok((TakeLengths(TakeNumber, s).value.0, TakeLengths(TakeNumber, s).value.1 + t))
  {
    var a := TakeNumber(s).value;
    var b := TakeNumber(a.1).value;
    var c := TakeNumber(b.1).value;
    TakeExtends(s, t);
    TakeExtends(a.1, t);
    TakeExtends(b.1, t);
    LengthsBack(TakeNumber, s + t, a.0, a.1 + t, b.0, b.1 + t, c.0, c.1 + t);
  }

  lemma AssembleExtends(n: Lengths, rest: bytes, prev: bytes, end: nat, t: bytes)
    requires |rest| <= end && Assemble(n, rest, prev, end).Ok?
    ensures Assemble(n, rest + t, prev, end + |t|) == Assemble(n, rest, prev, end)
  {
    assert (rest + t)[..n.unshared] == rest[..n.unshared];
    assert (rest + t)[n.unshared..n.unshared + n.value] == rest[n.unshared..n.unshared + n.value];
  }

  lemma EntryExtendsWith(take: NumberTaker, s: bytes, t: bytes, start: nat, prev: bytes, n: Lengths, rest: bytes)
    requires start < |s| && TakeLengths(take, s[start..]) == Ok((n, rest))
    requires TakeLengths(take, s[start..] + t) == Ok((n, rest + t))
    requires ReadEntryWith(take, s, start, prev).Ok?
    ensures ReadEntryWith(take, s + t, start, prev) == ReadEntryWith(take, s, start, prev)
  {
    DropConcat(s, t, start);
    WithExtends(Ok((n, rest)), Ok((n, rest + t)), prev, |s|, t);
  }

  lemma EntryExtends(s: bytes, t: bytes, start: nat, prev: bytes)
    requires ReadEntry(s, start, prev).Ok?
    ensures ReadEntry(s + t, start, prev) == ReadEntry(s, start, prev)
  {
    LengthsExtend(s[start..], t);
    var (n, rest) := TakeLengths(TakeNumber, s[start..]).value;
    EntryExtendsWith(TakeNumber, s, t, start, prev, n, rest);
  }

  lemma WithExtends(n: Result<(Lengths, bytes)>, m: Result<(Lengths, bytes)>, prev: bytes, end: nat, t: bytes)
    requires EntryWith(n, prev, end).Ok? && m == Ok((n.value.0, n.value.1 + t))
    ensures EntryWith(m, prev, end + |t|) == EntryWith(n, prev, end)
  {
    AssembleExtends(n.value.0, n.value.1, prev, end, t);
  }

  lemma DropConcat(s: bytes, t: bytes, k: nat)
    requires k <= |s|
    ensures (s + t)[k..] == s[k..] + t
  {
  }

  /** One decoder agrees with another wherever the other succeeds. */
  ghost predicate Extends(less: Decoder, more: Decoder) {
    forall start, prev | less(start, prev).Ok? :: more(start, prev) == less(start, prev)
  }

  lemma DecoderExtends(s: bytes, t: bytes)
    ensures Extends(DecoderOf(s), DecoderOf(s + t))
  {
    forall start: nat, prev: bytes | DecoderOf(s)(start, prev).Ok?
      ensures DecoderOf(s + t)(start, prev) == DecoderOf(s)(start, prev)
    {
      EntryExtends(s, t, start, prev);
    }
  }

  lemma SameStart(items: seq<Item>, e: Item, i: nat)
    requires i <= |items|
    ensures StartFrom(0, items + [e], i) == StartFrom(0, items, i)
    ensures BeforeFrom([], items + [e], i) == BeforeFrom([], items, i)
  {
  }

  lemma ReadsStill(less: Decoder, more: Decoder, n: nat, m: nat, start: nat, prev: bytes, e: Item)
    requires Extends(less, more) && ReadsAs(less, n, start, prev, e) && n <= m
    ensures ReadsAs(more, m, start, prev, e)
  {
  }

  /** An entry written at the end lengthens the chain. */
  lemma ChainSnoc(less: Decoder, more: Decoder, n: nat, items: seq<Item>, e: Item)
    requires Extends(less, more) && Chained(less, n, 0, [], items)
    requires more(n, BeforeFrom([], items, |items|)) == Ok(e) && n < e.next
    ensures Chained(more, e.next, 0, [], items + [e])
  {
    var all := items + [e];
    forall i | 0 <= i < |all|
      ensures Linked(more, e.next, 0, [], all, i)
    {
      SameStart(items, e, i);
      if i < |items| {
        assert Linked(less, n, 0, [], items, i);
        ReadsStill(less, more, n, e.next, StartFrom(0, items, i), BeforeFrom([], items, i), items[i]);
      }
    }
  }

  // ----- The footer -----

  lemma WordBack(s: bytes, at: nat, n: nat)
    requires at + WORD <= |s| && n < U32_END && s[at..at + WORD] == LittleEndian(n, WORD)
    ensures WordAt(s, at) == n
  {
    Pow256Values();
    LittleEndianRoundTrip(n, WORD);
  }

  lemma Inside(body: bytes, words: bytes, tail: bytes, at: nat)
    requires at + WORD <= |words|
    ensures (body + words + tail)[|body| + at..|body| + at + WORD] == words[at..at + WORD]
  {
  }

  lemma WordsWidth(offsets: seq<nat>)
    ensures |Join(Words(offsets))| == WORD * |offsets|
  {
    AtMultiple(Words(offsets), WORD, |offsets|);
    JoinEnds(Words(offsets));
  }

  lemma OffsetBack(body: bytes, offsets: seq<nat>, k: nat)
    requires k < |offsets| && Small(offsets)
    ensures |body| + WORD * k + WORD <= |WithFooter(body, offsets)|
    ensures WordAt(WithFooter(body, offsets), |body| + WORD * k) == offsets[k]
  {
    var words := Words(offsets);
    var s := WithFooter(body, offsets);
    WordsWidth(offsets);
    AtMultiple(words, WORD, k);
    AtMultiple(words, WORD, k + 1);
    JoinAt(words, k);
    Inside(body, Join(words), LittleEndian(|offsets|, WORD), WORD * k);
    WordBack(s, |body| + WORD * k, offsets[k]);
  }

  lemma CountBack(body: bytes, offsets: seq<nat>)
    requires |offsets| < U32_END
    ensures |WithFooter(body, offsets)| == |body| + WORD * |offsets| + WORD
    ensures RestartCount(WithFooter(body, offsets)) == |offsets|
  {
    var s := WithFooter(body, offsets);
    var last := LittleEndian(|offsets|, WORD);
    WordsWidth(offsets);
    assert s[|s| - WORD..|s| - WORD + WORD] == last;
    WordBack(s, |s| - WORD, |offsets|);
  }

  lemma FooterBack(body: bytes, offsets: seq<nat>)
    requires 0 < |offsets| < U32_END && Small(offsets)
    ensures HasFooter(WithFooter(body, offsets))
    ensures EntriesEnd(WithFooter(body, offsets)) == |body|
    ensures FooterOffsets(WithFooter(body, offsets)) == offsets
  {
    var s := WithFooter(body, offsets);
    CountBack(body, offsets);
    forall k | 0 <= k < |offsets| ensures WordAt(s, |body| + WORD * k) == offsets[k] {
      OffsetBack(body, offsets, k);
    }
  }

  function PairsOf(items: seq<Item>): (r: seq<Pair>)
    ensures |r| == |items|
  {
    seq(|items|, i requires 0 <= i < |items| => (items[i].key, items[i].value))
  }

  lemma FrontOf(body: bytes, x: bytes, y: bytes)
    ensures (body + x + y)[..|body|] == body
  {
  }

  /** The block that a footer-terminated string describes. */
  lemma DescribedBy(body: bytes, offsets: seq<nat>, items: seq<Item>)
    requires Items(DecoderOf(body), |body|, 0, []) == Ok(items)
    requires 0 < |offsets| < U32_END && Small(offsets)
    ensures HasFooter(WithFooter(body, offsets))
    ensures BlockOf(WithFooter(body, offsets)) == Block(body, offsets, |items|)
  {
    FooterBack(body, offsets);
    CountBack(body, offsets);
    FrontOf(body, Join(Words(offsets)), LittleEndian(|offsets|, WORD));
  }

  // ----- The builder -----

  /** The entries written in a buffer. */
  ghost function Listings(entries: bytes): iset<seq<Item>> {
    iset items | Chained(DecoderOf(entries), |entries|, 0, [], items)
  }

  /** Restart `k` is entry `runs[k]`, which shares nothing. */
  ghost predicate RestartsMatch(restarts: seq<nat>, runs: seq<nat>, items: seq<Item>) {
    && |restarts| == |runs| > 0 && restarts[0] == 0
    && (items == [] ==> |restarts| == 1)
    && (items != [] ==> forall k | 0 <= k < |runs| ::
          runs[k] < |items| && Start(items, runs[k]) == restarts[k] && items[runs[k]].shared == 0)
  }

  predicate FullRun(runs: seq<nat>, n: nat, k: nat)
    requires k + 1 < |runs|
  {
    runs[k + 1] == runs[k] + n
  }

  /** Runs of exactly `n` entries, the last one still open with `since` entries. */
  ghost predicate Cadence(runs: seq<nat>, n: nat, since: nat, count: nat) {
    && |runs| > 0 && runs[0] == 0 && since <= n && count == runs[|runs| - 1] + since
    && forall k | 0 <= k < |runs| - 1 :: FullRun(runs, n, k)
  }

  predicate Prefixed(items: seq<Item>, i: nat)
    requires 0 < i < |items|
  {
    items[i].shared == Shared(items[i - 1].key, items[i].key)
  }

  /** Between restarts every key is stored without the prefix it shares with its predecessor. */
  ghost predicate Compressed(runs: seq<nat>, items: seq<Item>) {
    forall i | 0 < i < |items| && i !in runs :: Prefixed(items, i)
  }

  /** Every entry takes at least three bytes. */
  predicate Spaced(restarts: seq<nat>) {
    forall i, j | 0 <= i < j < |restarts| :: restarts[i] + 3 <= restarts[j]
  }

  /** The fields of a builder that has written `items`. */
  ghost predicate Built(items: seq<Item>, runs: seq<nat>, n: nat, since: nat, entries: bytes, restarts: seq<nat>) {
    && n > 0
    && items in Listings(entries)
    && KeysIncrease(items)
    && RestartsMatch(restarts, runs, items) && Spaced(restarts) && Small(restarts)
    && restarts[|restarts| - 1] + 3 * since <= |entries|
    && Cadence(runs, n, since, |items|) && Compressed(runs, items)
  }

  lemma BuiltAccepted(items: seq<Item>, runs: seq<nat>, n: nat, since: nat, entries: bytes, restarts: seq<nat>)
    requires Built(items, runs, n, since, entries, restarts)
    ensures Acceptable(WithFooter(entries, restarts))
    ensures Contents(BlockOf(WithFooter(entries, restarts))) == items
  {
    ChainedItems(DecoderOf(entries), |entries|, 0, [], items);
    CountSmall(restarts);
    DescribedBy(entries, restarts, items);
    ValidBlock(items, runs, entries, restarts);
  }

  lemma RestartsChecked(items: seq<Item>, runs: seq<nat>, restarts: seq<nat>)
    requires RestartsMatch(restarts, runs, items) && items != []
    ensures forall k | 0 <= k < |restarts| :: RestartsAt(items, restarts[k])
  {
    forall k | 0 <= k < |restarts| ensures RestartsAt(items, restarts[k]) {
      assert Start(items, runs[k]) == restarts[k];
    }
  }

  lemma CheckedBlock(read: Decoder, n: nat, items: seq<Item>, runs: seq<nat>, restarts: seq<nat>)
    requires Items(read, n, 0, []) == Ok(items) && KeysIncrease(items)
    requires RestartsMatch(restarts, runs, items) && Ascending(restarts)
    ensures Checked(read, n, restarts, items)
  {
    if items != [] {
      RestartsChecked(items, runs, restarts);
    }
  }

  lemma ValidBlock(items: seq<Item>, runs: seq<nat>, entries: bytes, restarts: seq<nat>)
    requires Items(DecoderOf(entries), |entries|, 0, []) == Ok(items) && KeysIncrease(items)
    requires RestartsMatch(restarts, runs, items) && Ascending(restarts)
    ensures Valid(Block(entries, restarts, |items|))
    ensures Contents(Block(entries, restarts, |items|)) == items
  {
    CheckedBlock(DecoderOf(entries), |entries|, items, runs, restarts);
  }

  lemma CountSmall(restarts: seq<nat>)
    requires |restarts| > 0 && Spaced(restarts) && Small(restarts)
    ensures |restarts| < U32_END && Ascending(restarts)
  {
    SpacedCount(restarts, |restarts| - 1);
  }

  lemma {:induction false} SpacedCount(offsets: seq<nat>, k: nat)
    requires Spaced(offsets) && k < |offsets|
    ensures 3 * k <= offsets[k]
  {
    if k > 0 {
      SpacedCount(offsets, k - 1);
    }
  }

  // What one more entry does to each part of the invariant.

  lemma EntryAtEnd(entries: bytes, prev: bytes, shared: nat, key: bytes, value: bytes)
    requires |key| <= U64_MAX && |value| <= U64_MAX
    requires shared <= |key| && shared <= |prev| && prev[..shared] == key[..shared]
    ensures var all := entries + EntryBytes(shared, key, value);
            DecoderOf(all)(|entries|, prev) == Ok(Item(shared, key, value, |all|))
  {
    var e := EntryBytes(shared, key, value);
    EndsWith(entries, e);
    ReadEntryBack(entries + e, |entries|, prev, shared, key, value, []);
  }

  lemma EndsWith(s: bytes, e: bytes)
    ensures (s + e)[|s|..] == e + []
  {
  }

  lemma AddedEntry(entries: bytes, e: bytes, items: seq<Item>, item: Item)
    requires items in Listings(entries)
    requires DecoderOf(entries + e)(|entries|, BeforeFrom([], items, |items|)) == Ok(item)
    requires item.next == |entries + e| && e != []
    ensures items + [item] in Listings(entries + e)
  {
    DecoderExtends(entries, e);
    ChainSnoc(DecoderOf(entries), DecoderOf(entries + e), |entries|, items, item);
  }

  lemma MatchMore(restarts: seq<nat>, runs: seq<nat>, items: seq<Item>, e: Item)
    requires RestartsMatch(restarts, runs, items) && runs[0] == 0 && (items == [] ==> e.shared == 0)
    ensures RestartsMatch(restarts, runs, items + [e])
  {
    var all := items + [e];
    if items == [] {
      SameStart(items, e, 0);
    } else {
      forall k | 0 <= k < |runs|
        ensures runs[k] < |all| && Start(all, runs[k]) == restarts[k] && all[runs[k]].shared == 0
      {
        SameStart(items, e, runs[k]);
      }
    }
  }

  lemma MatchRun(restarts: seq<nat>, runs: seq<nat>, items: seq<Item>, e: Item)
    requires RestartsMatch(restarts, runs, items) && items != [] && e.shared == 0
    ensures RestartsMatch(restarts + [Start(items, |items|)], runs + [|items|], items + [e])
  {
    SameStart(items, e, |items|);
    forall k | 0 <= k < |runs| ensures Start(items + [e], runs[k]) == restarts[k] {
      SameStart(items, e, runs[k]);
    }
  }

  lemma CompressedMore(runs: seq<nat>, more: seq<nat>, items: seq<Item>, e: Item)
    requires Compressed(runs, items) && runs <= more
    requires items != [] && |items| !in more ==> e.shared == Shared(items[|items| - 1].key, e.key)
    ensures Compressed(more, items + [e])
  {
    var all := items + [e];
    assert forall i | i in runs :: i in more;
    forall i | 0 < i < |all| && i !in more ensures Prefixed(all, i) {
      if i < |items| {
        assert Prefixed(items, i);
      }
    }
  }

  lemma CadenceRun(runs: seq<nat>, n: nat, count: nat)
    requires Cadence(runs, n, n, count) && n > 0
    ensures Cadence(runs + [count], n, 1, count + 1)
  {
    var more := runs + [count];
    forall k | 0 <= k < |more| - 1 ensures FullRun(more, n, k) {
      if k < |runs| - 1 {
        assert FullRun(runs, n, k);
      }
    }
  }

  lemma SpacedMore(restarts: seq<nat>, r: nat)
    requires Spaced(restarts) && (restarts != [] ==> restarts[|restarts| - 1] + 3 <= r)
    ensures Spaced(restarts + [r])
  {
    var all := restarts + [r];
    var m := |restarts|;
    forall i, j | 0 <= i < j < |all| ensures all[i] + 3 <= all[j] {
      assert j == m && i < m - 1 ==> restarts[i] + 3 <= restarts[m - 1];
    }
  }

  lemma PairsSnoc(items: seq<Item>, e: Item)
    ensures PairsOf(items + [e]) == PairsOf(items) + [(e.key, e.value)]
  {
  }

  /** An entry that opens a new run. */
  lemma AddedRun(items: seq<Item>, runs: seq<nat>, n: nat, entries: bytes, restarts: seq<nat>, e: bytes, item: Item)
    requires Built(items, runs, n, n, entries, restarts) && |entries| < U32_END
    requires items + [item] in Listings(entries + e) && |e| >= 3
    requires item.shared == 0 && KeysIncrease(items + [item])
    ensures Built(items + [item], runs + [|items|], n, 1, entries + e, restarts + [|entries|])
  {
    MatchRun(restarts, runs, items, item);
    CompressedMore(runs, runs + [|items|], items, item);
    CadenceRun(runs, n, |items|);
    SpacedMore(restarts, |entries|);
  }

  /** An entry that continues the current run. */
  lemma AddedMore(items: seq<Item>, runs: seq<nat>, n: nat, since: nat, entries: bytes, restarts: seq<nat>,
                  e: bytes, item: Item)
    requires Built(items, runs, n, since, entries, restarts) && since < n
    requires items + [item] in Listings(entries + e) && |e| >= 3
    requires item.shared == Shared(BeforeFrom([], items, |items|), item.key) && KeysIncrease(items + [item])
    ensures Built(items + [item], runs, n, since + 1, entries + e, restarts)
  {
    MatchMore(restarts, runs, items, item);
    CompressedMore(runs, runs, items, item);
  }

  lemma Written(items: seq<Item>, entries: bytes, prev: bytes, shared: nat, key: bytes, value: bytes)
    requires items in Listings(entries) && KeysIncrease(items)
    requires prev == BeforeFrom([], items, |items|) && (items != [] ==> Less(prev, key))
    requires |key| <= U64_MAX && |value| <= U64_MAX
    requires shared <= |key| && shared <= |prev| && prev[..shared] == key[..shared]
    ensures var all := entries + EntryBytes(shared, key, value);
            var more := items + [Item(shared, key, value, |all|)];
            && more in Listings(all)
            && KeysIncrease(more)
            && PairsOf(more) == PairsOf(items) + [(key, value)]
  {
    var e := EntryBytes(shared, key, value);
    var item := Item(shared, key, value, |entries + e|);
    EntryAtEnd(entries, prev, shared, key, value);
    AddedEntry(entries, e, items, item);
    KeysIncreaseStep(items, item);
    PairsSnoc(items, item);
  }

  method WriteEntry(buffer: bytes, shared: u64, key: bytes, value: bytes) returns (r: bytes)
    requires shared <= |key| <= U64_MAX && |value| <= U64_MAX
    ensures r == buffer + EntryBytes(shared, key, value)
  {
    r := PutVarint(buffer, shared);
    r := PutVarint(r, |key| - shared);
    r := PutVarint(r, |value|);
    Appended(buffer, Put(shared), Put(|key| - shared), Put(|value|), key[shared..], value);
    r := r + key[shared..] + value;
  }

  lemma Appended(front: bytes, x: bytes, y: bytes, z: bytes, u: bytes, v: bytes)
    ensures front + x + y + z + u + v == front + (x + y + z + u + v)
  {
  }

  /** A builder's fields, with the entries and runs they stand for. */
  datatype Building = Building(items: seq<Item>, runs: seq<nat>, n: nat, since: nat, entries: bytes,
                               restarts: seq<nat>, previous: bytes)

  // ----- Size -----

  function EntryCost(e: Item): nat {
    if e.shared <= |e.key| then |EntryBytes(e.shared, e.key, e.value)| else 0
  }

  /** Bytes the entries take in the buffer. */
  function Cost(items: seq<Item>): nat {
    if items == [] then 0 else Cost(items[..|items| - 1]) + EntryCost(items[|items| - 1])
  }

  function PairWeight(p: Pair): nat {
    |p.0| + |p.1|
  }

  /** Key and value bytes. */
  function Weight(pairs: seq<Pair>): nat {
    if pairs == [] then 0 else Weight(pairs[..|pairs| - 1]) + PairWeight(pairs[|pairs| - 1])
  }

  lemma CostSnoc(items: seq<Item>, e: Item)
    ensures Cost(items + [e]) == Cost(items) + EntryCost(e)
  {
    assert (items + [e])[..|items|] == items;
  }

  lemma WeightSnoc(pairs: seq<Pair>, p: Pair)
    ensures Weight(pairs + [p]) == Weight(pairs) + PairWeight(p)
  {
    assert (pairs + [p])[..|pairs|] == pairs;
  }

  /** The most an entry takes: its key and value, and three short lengths. */
  function PairBound(p: Pair): nat {
    PairWeight(p) + if 3 + PairWeight(p) / 128 < 30 then 3 + PairWeight(p) / 128 else 30
  }

  function Bound(pairs: seq<Pair>): nat {
    if pairs == [] then 0 else Bound(pairs[..|pairs| - 1]) + PairBound(pairs[|pairs| - 1])
  }

  /** The most a finished block of these pairs takes, restart points and their count included. */
  function BlockBound(pairs: seq<Pair>): nat {
    Bound(pairs) + WORD * (if pairs == [] then 1 else |pairs|) + WORD
  }

  lemma EntryOverhead(e: Item)
    requires |e.key| <= U64_MAX && |e.value| <= U64_MAX
    ensures EntryCost(e) <= PairBound((e.key, e.value))
  {
    if e.shared <= |e.key| {
      PutShort(e.shared);
      PutShort(|e.key| - e.shared);
      PutShort(|e.value|);
    }
  }

  lemma {:induction false} CostWithinBound(items: seq<Item>)
    requires forall e | e in items :: |e.key| <= U64_MAX && |e.value| <= U64_MAX
    ensures Cost(items) <= Bound(PairsOf(items))
  {
    if items != [] {
      var n := |items| - 1;
      assert items[n] in items;
      CostWithinBound(items[..n]);
      EntryOverhead(items[n]);
      assert PairsOf(items)[..n] == PairsOf(items[..n]);
    }
  }

  /** With at least 17 bytes in every pair, the overhead at most doubles the block. */
  lemma {:induction false} BoundAtMostDouble(pairs: seq<Pair>)
    requires forall p | p in pairs :: 17 <= PairWeight(p)
    ensures Bound(pairs) + 8 * |pairs| <= 2 * Weight(pairs)
  {
    if pairs != [] {
      var n := |pairs| - 1;
      assert pairs[n] in pairs;
      BoundAtMostDouble(pairs[..n]);
    }
  }

  lemma {:induction false} BoundAtMostMore(pairs: seq<Pair>)
    ensures Bound(pairs) <= Weight(pairs) + 30 * |pairs|
  {
    if pairs != [] {
      BoundAtMostMore(pairs[..|pairs| - 1]);
    }
  }

  ghost predicate Measured(b: Building) {
    && |b.entries| == Cost(b.items)
    && (forall e | e in b.items :: |e.key| <= U64_MAX && |e.value| <= U64_MAX)
    && |b.restarts| <= |b.items| + (if b.items == [] || b.since == 0 then 1 else 0)
  }

  ghost predicate Sound(b: Building) {
    && Measured(b)
    && b.previous == BeforeFrom([], b.items, |b.items|)
    && Built(b.items, b.runs, b.n, b.since, b.entries, b.restarts)
  }

  ghost const SOUND: iset<Building> := iset b: Building | Sound(b)

  ghost predicate Addable(b: Building, key: bytes, value: bytes) {
    (b.items != [] ==> Less(b.previous, key)) && |key| <= U64_MAX && |value| <= U64_MAX
  }

  /** The builder after an entry that shares `shared` bytes with its predecessor. */
  ghost function Continued(b: Building, shared: nat, key: bytes, value: bytes): Building
    requires shared <= |key|
  {
    var all := b.entries + EntryBytes(shared, key, value);
    b.(items := b.items + [Item(shared, key, value, |all|)], since := b.since + 1, entries := all, previous := key)
  }

  /** The builder just before an entry that opens a new run. */
  ghost function Restarted(b: Building): Building {
    b.(runs := b.runs + [|b.items|], since := 0, restarts := b.restarts + [|b.entries|])
  }

  lemma ContinuedMeasured(b: Building, shared: nat, key: bytes, value: bytes)
    requires Measured(b) && shared <= |key| <= U64_MAX && |value| <= U64_MAX
    ensures Measured(Continued(b, shared, key, value))
  {
    CostSnoc(b.items, Item(shared, key, value, |b.entries + EntryBytes(shared, key, value)|));
  }

  lemma SoundJoin(b: Building)
    requires Measured(b) && b.previous == BeforeFrom([], b.items, |b.items|)
    requires Built(b.items, b.runs, b.n, b.since, b.entries, b.restarts)
    ensures b in SOUND
  {
  }

  lemma SoundParts(b: Building)
    requires b in SOUND
    ensures Measured(b) && b.previous == BeforeFrom([], b.items, |b.items|)
    ensures Built(b.items, b.runs, b.n, b.since, b.entries, b.restarts)
  {
  }

  lemma ContinuedSound(b: Building, key: bytes, value: bytes)
    requires b in SOUND && Addable(b, key, value) && b.since != b.n
    ensures Continued(b, Shared(b.previous, key), key, value) in SOUND
  {
    SoundParts(b);
    var shared := Shared(b.previous, key);
    var e := EntryBytes(shared, key, value);
    Written(b.items, b.entries, b.previous, shared, key, value);
    AddedMore(b.items, b.runs, b.n, b.since, b.entries, b.restarts, e, Item(shared, key, value, |b.entries + e|));
    ContinuedMeasured(b, shared, key, value);
    SoundJoin(Continued(b, shared, key, value));
  }

  lemma RestartedSound(b: Building, key: bytes, value: bytes)
    requires b in SOUND && Addable(b, key, value) && b.since == b.n && |b.entries| < U32_END
    ensures Continued(Restarted(b), 0, key, value) in SOUND
  {
    SoundParts(b);
    var e := EntryBytes(0, key, value);
    Written(b.items, b.entries, b.previous, 0, key, value);
    AddedRun(b.items, b.runs, b.n, b.entries, b.restarts, e, Item(0, key, value, |b.entries + e|));
    ContinuedMeasured(Restarted(b), 0, key, value);
    SoundJoin(Continued(Restarted(b), 0, key, value));
  }

  lemma EmptySound(n: nat)
    requires n > 0
    ensures Building([], [0], n, 0, [], [0], []) in SOUND
  {
  }

  /** How long a finished block is. */
  lemma SoundSize(b: Building)
    requires b in SOUND
    ensures |WithFooter(b.entries, b.restarts)| == Cost(b.items) + WORD * |b.restarts| + WORD
    ensures |WithFooter(b.entries, b.restarts)| <= BlockBound(PairsOf(b.items))
  {
    WordsWidth(b.restarts);
    CostWithinBound(b.items);
    if b.since == 0 {
      assert b.items == [] || |b.restarts| <= |b.items|;
    }
  }

  lemma SoundAccepted(b: Building)
    requires b in SOUND
    ensures Acceptable(WithFooter(b.entries, b.restarts))
    ensures Contents(BlockOf(WithFooter(b.entries, b.restarts))) == b.items
  {
    BuiltAccepted(b.items, b.runs, b.n, b.since, b.entries, b.restarts);
  }

  lemma EmptyEntries(b: Building)
    requires b in SOUND && b.items == []
    ensures b.entries == []
  {
  }

  lemma PreviousKey(b: Building)
    requires b in SOUND && b.items != []
    ensures b.previous == PairsOf(b.items)[|b.items| - 1].0
  {
  }

  lemma SoundCost(b: Building)
    requires b in SOUND
    ensures |b.entries| <= Weight(PairsOf(b.items)) + 30 * |b.items|
  {
    CostWithinBound(b.items);
    BoundAtMostMore(PairsOf(b.items));
  }

  /** Payloads that pass every check, with the pairs they hold. */
  ghost const HOLDS: iset<(bytes, seq<Pair>)> :=
    iset x: (bytes, seq<Pair>) | Acceptable(x.0) && PairsOf(Contents(BlockOf(x.0))) == x.1

  lemma SoundHolds(b: Building)
    requires b in SOUND
    ensures (WithFooter(b.entries, b.restarts), PairsOf(b.items)) in HOLDS
  {
    SoundAccepted(b);
  }

  /** Appends entries to a growing buffer, restarting the prefix compression at fixed intervals. */
  class BlockBuilder {
    const interval: nat
    var sinceRestart: nat
    var entries: bytes
    var restarts: seq<nat>
    var previous: bytes
    var count: nat
    ghost var items: seq<Item>
    ghost var runs: seq<nat>

    ghost function State(): Building
      reads this
    {
      Building(items, runs, interval, sinceRestart, entries, restarts, previous)
    }

    ghost predicate Good()
      reads this
    {
      count == |items| && State() in SOUND
    }

    constructor (interval: nat)
      requires interval > 0
      ensures Good() && items == [] && this.interval == interval
    {
      this.interval := interval;
      sinceRestart := 0;
      entries := [];
      restarts := [0];
      previous := [];
      count := 0;
      items := [];
      runs := [0];
      EmptySound(interval);
    }

    /** Adds a pair exactly when its key is above the last one and a due restart can be addressed. */
    method Add(key: bytes, value: bytes) returns (ok: bool)
      requires Good() && |key| <= U64_MAX && |value| <= U64_MAX
      modifies this
      ensures Good()
      ensures ok <==> && (old(items) != [] ==> Less(old(previous), key))
                      && (old(sinceRestart) == interval ==> |old(entries)| < U32_END)
      ensures ok ==> PairsOf(items) == PairsOf(old(items)) + [(key, value)]
      ensures !ok ==> State() == old(State())
    {
      if count != 0 && !Less(previous, key) {
        return false;
      }
      if sinceRestart == interval {
        if |entries| >= U32_END {
          return false;
        }
        RestartedSound(State(), key, value);
        PairsSnoc(items, Item(0, key, value, |entries + EntryBytes(0, key, value)|));
        OpenRun();
        Append(0, key, value);
      } else {
        ContinuedSound(State(), key, value);
        var shared := Shared(previous, key);
        PairsSnoc(items, Item(shared, key, value, |entries + EntryBytes(shared, key, value)|));
        Append(shared, key, value);
      }
      return true;
    }

    /** Records a restart point at the end of the buffer. */
    method OpenRun()
      modifies this
      ensures State() == Restarted(old(State())) && count == old(count)
    {
      runs := runs + [|items|];
      restarts := restarts + [|entries|];
      sinceRestart := 0;
    }

    /** Writes one entry and advances the counters. */
    method Append(shared: nat, key: bytes, value: bytes)
      requires shared <= |key| <= U64_MAX && |value| <= U64_MAX
      modifies this
      ensures State() == Continued(old(State()), shared, key, value) && count == old(count) + 1
    {
      entries := WriteEntry(entries, shared, key, value);
      previous := key;
      sinceRestart := sinceRestart + 1;
      count := count + 1;
      items := items + [Item(shared, key, value, |entries|)];
    }

    /** A finished block passes every check and holds exactly the added entries. */
    method Finish() returns (encoded: bytes)
      requires Good()
      ensures encoded == WithFooter(entries, restarts) && (encoded, PairsOf(items)) in HOLDS
      ensures |encoded| <= BlockBound(PairsOf(items))
    {
      ghost var words := Words(restarts);
      encoded := entries;
      JoinEnds(words);
      for k := 0 to |restarts|
        invariant encoded == entries + Join(words[..k])
      {
        JoinStep(words, k);
        ConcatAssociative(entries, Join(words[..k]), words[k]);
        encoded := encoded + LittleEndian(restarts[k], WORD);
      }
      assert words[..|words|] == words;
      encoded := encoded + LittleEndian(|restarts|, WORD);
      SoundHolds(State());
      SoundSize(State());
    }
  }
}
