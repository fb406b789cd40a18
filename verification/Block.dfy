/** Prefix-compressed data blocks with restart points: entries, building, decoding and seeking. */
module Blocks {
  import opened Bytes
  import opened Varints

  const WORD := 4

  // ----- Reading one entry -----

  /** Shared, unshared and value lengths. */
  datatype Lengths = Lengths(shared: nat, unshared: nat, value: nat)

  function TakeLengths(take: NumberTaker, s: bytes): Result<(Lengths, bytes)> {
    var a := take(s);
    if a.Err? then Err else
      var b := take(a.value.1);
      if b.Err? then Err else
        var c := take(b.value.1);
        if c.Err? then Err else Ok((Lengths(a.value.0, b.value.0, c.value.0), c.value.1))
  }

  /** A reconstructed entry, the prefix it shares with its predecessor and where it ends. */
  datatype Item = Item(shared: nat, key: bytes, value: bytes, next: nat)

  /** Rebuilds the key from the previous one and cuts out the value; `rest` ends at offset `end`. */
  function Assemble(n: Lengths, rest: bytes, prev: bytes, end: nat): (r: Result<Item>)
    requires |rest| <= end
    ensures r.Ok? ==> end - |rest| <= r.value.next <= end && r.value.shared == n.shared <= |prev|
  {
    if n.shared > |prev| || n.unshared + n.value > |rest| then Err else
      Ok(Item(n.shared, prev[..n.shared] + rest[..n.unshared], rest[n.unshared..n.unshared + n.value],
              end - |rest| + n.unshared + n.value))
  }

  function EntryWith(n: Result<(Lengths, bytes)>, prev: bytes, end: nat): (r: Result<Item>)
    ensures r.Ok? ==> n.Ok? && end - |n.value.1| <= r.value.next <= end && r.value.shared <= |prev|
  {
    if n.Err? || |n.value.1| > end then Err else Assemble(n.value.0, n.value.1, prev, end)
  }

  function ReadEntryWith(take: NumberTaker, s: bytes, start: nat, prev: bytes): Result<Item> {
    if start >= |s| then Err else EntryWith(TakeLengths(take, s[start..]), prev, |s|)
  }

  function ReadEntry(s: bytes, start: nat, prev: bytes): (r: Result<Item>)
    ensures r.Ok? ==> start < r.value.next <= |s| && r.value.shared <= |prev|
  {
    ReadEntryWith(TakeNumber, s, start, prev)
  }

  /** Decodes the entry at an offset, given the key before it. */
  type Decoder = (nat, bytes) -> Result<Item>

  function DecoderOf(s: bytes): Decoder {
    (start: nat, prev: bytes) => ReadEntry(s, start, prev)
  }

  /** The entries from `start` up to `n`, or an error if any of them is malformed. */
  function Items(read: Decoder, n: nat, start: nat, prev: bytes): (r: Result<seq<Item>>)
    decreases n - start
  {
    if start >= n then Ok([]) else
      var e := read(start, prev);
      if e.Err? || !(start < e.value.next <= n) then Err else
        var rest := Items(read, n, e.value.next, e.value.key);
        if rest.Err? then Err else Ok([e.value] + rest.value)
  }

  /** Where entry `i` begins, and the key before it, in a list read from `start` after `prev`. */
  function StartFrom(start: nat, items: seq<Item>, i: nat): nat
    requires i <= |items|
  {
    if i == 0 then start else items[i - 1].next
  }

  function BeforeFrom(prev: bytes, items: seq<Item>, i: nat): bytes
    requires i <= |items|
  {
    if i == 0 then prev else items[i - 1].key
  }

  predicate ReadsAs(read: Decoder, n: nat, start: nat, prev: bytes, e: Item) {
    read(start, prev) == Ok(e) && start < e.next <= n
  }

  predicate Linked(read: Decoder, n: nat, start: nat, prev: bytes, items: seq<Item>, i: nat)
    requires i < |items|
  {
    ReadsAs(read, n, StartFrom(start, items, i), BeforeFrom(prev, items, i), items[i])
  }

  /** Each entry is the one decoded where its predecessor ends, and the last ends at `n`. */
  ghost predicate Chained(read: Decoder, n: nat, start: nat, prev: bytes, items: seq<Item>) {
    && StartFrom(start, items, |items|) == n
    && forall i | 0 <= i < |items| :: Linked(read, n, start, prev, items, i)
  }

  lemma {:induction false} ItemsChained(read: Decoder, n: nat, start: nat, prev: bytes)
    requires start <= n && Items(read, n, start, prev).Ok?
    ensures Chained(read, n, start, prev, Items(read, n, start, prev).value)
    decreases n - start
  {
    if start < n {
      var e := read(start, prev).value;
      var rest := Items(read, n, e.next, e.key).value;
      ItemsChained(read, n, e.next, e.key);
      var items := Items(read, n, start, prev).value;
      forall i | 0 <= i < |items|
        ensures Linked(read, n, start, prev, items, i)
      {
        if i > 0 {
          assert Linked(read, n, e.next, e.key, rest, i - 1);
        }
      }
    }
  }

  lemma {:induction false} ChainedItems(read: Decoder, n: nat, start: nat, prev: bytes, items: seq<Item>)
    requires Chained(read, n, start, prev, items)
    ensures Items(read, n, start, prev) == Ok(items)
    decreases |items|
  {
    if items != [] {
      var e := items[0];
      assert Linked(read, n, start, prev, items, 0);
      var rest := items[1..];
      forall i | 0 <= i < |rest|
        ensures Linked(read, n, e.next, e.key, rest, i)
      {
        assert Linked(read, n, start, prev, items, i + 1);
      }
      ChainedItems(read, n, e.next, e.key, rest);
      assert items == [e] + rest;
    }
  }

  // ----- A decoded block -----

  function Start(items: seq<Item>, i: nat): nat
    requires i <= |items|
  {
    StartFrom(0, items, i)
  }

  predicate KeysIncrease(items: seq<Item>) {
    forall i, j | 0 <= i < j < |items| :: Less(items[i].key, items[j].key)
  }

  predicate Ascending(restarts: seq<nat>) {
    forall i, j | 0 <= i < j < |restarts| :: restarts[i] < restarts[j]
  }

  /** Offset `r` begins an entry that shares nothing with its predecessor. */
  predicate RestartsAt(items: seq<Item>, r: nat) {
    exists i | 0 <= i < |items| :: Start(items, i) == r && items[i].shared == 0
  }

  /** What the checks establish about entries, restart offsets and their decoder. */
  predicate Checked(read: Decoder, n: nat, restarts: seq<nat>, items: seq<Item>) {
    && Items(read, n, 0, []) == Ok(items)
    && KeysIncrease(items)
    && |restarts| > 0 && restarts[0] == 0 && Ascending(restarts)
    && (n == 0 ==> restarts == [0])
    && (n > 0 ==> forall k | 0 <= k < |restarts| :: RestartsAt(items, restarts[k]))
  }

  datatype Block = Block(entries: bytes, restarts: seq<nat>, count: nat)

  function Contents(b: Block): seq<Item> {
    var r := Items(DecoderOf(b.entries), |b.entries|, 0, []);
    if r.Ok? then r.value else []
  }

  predicate Valid(b: Block) {
    b.count == |Contents(b)| && Checked(DecoderOf(b.entries), |b.entries|, b.restarts, Contents(b))
  }

  function WordAt(s: bytes, at: nat): (n: nat)
    requires at + WORD <= |s|
    ensures n < U32_END
  {
    Pow256Values();
    FromLittleEndian(s[at..at + WORD])
  }

  function RestartCount(s: bytes): nat
    requires |s| >= WORD
  {
    WordAt(s, |s| - WORD)
  }

  predicate HasFooter(s: bytes) {
    |s| >= 2 * WORD && RestartCount(s) > 0 && WORD * RestartCount(s) + WORD <= |s|
  }

  function EntriesEnd(s: bytes): (n: nat)
    requires HasFooter(s)
  {
    |s| - WORD - WORD * RestartCount(s)
  }

  function FooterOffsets(s: bytes): (r: seq<nat>)
    requires HasFooter(s)
    ensures |r| == RestartCount(s)
  {
    seq(RestartCount(s), i requires 0 <= i < RestartCount(s) => WordAt(s, EntriesEnd(s) + WORD * i))
  }

  /** The block a byte string describes, before any of it is checked. */
  function BlockOf(s: bytes): Block
    requires HasFooter(s)
  {
    var b := Block(s[..EntriesEnd(s)], FooterOffsets(s), 0);
    b.(count := |Contents(b)|)
  }

  predicate Acceptable(s: bytes) {
    HasFooter(s) && Valid(BlockOf(s))
  }

  // ----- Facts about checked entries -----

  lemma EntryOf(read: Decoder, n: nat, restarts: seq<nat>, items: seq<Item>, i: nat)
    requires Checked(read, n, restarts, items) && i < |items|
    ensures ReadsAs(read, n, Start(items, i), BeforeFrom([], items, i), items[i])
  {
    ItemsChained(read, n, 0, []);
    assert Linked(read, n, 0, [], items, i);
  }

  lemma EndOf(read: Decoder, n: nat, restarts: seq<nat>, items: seq<Item>)
    requires Checked(read, n, restarts, items)
    ensures Start(items, |items|) == n
  {
    ItemsChained(read, n, 0, []);
  }

  ghost predicate StartsAscend(items: seq<Item>) {
    forall i, j | 0 <= i < j <= |items| :: Start(items, i) < Start(items, j)
  }

  lemma Link(read: Decoder, n: nat, items: seq<Item>, j: nat)
    requires Chained(read, n, 0, [], items) && j < |items|
    ensures Start(items, j) < Start(items, j + 1)
  {
    assert Linked(read, n, 0, [], items, j);
  }

  lemma {:induction false} ChainAscends(read: Decoder, n: nat, items: seq<Item>, i: nat, j: nat)
    requires Chained(read, n, 0, [], items) && i < j <= |items|
    ensures Start(items, i) < Start(items, j)
    decreases j - i
  {
    Link(read, n, items, j - 1);
    if i < j - 1 {
      ChainAscends(read, n, items, i, j - 1);
    }
  }

  lemma ItemsAscend(read: Decoder, n: nat)
    requires Items(read, n, 0, []).Ok?
    ensures StartsAscend(Items(read, n, 0, []).value)
  {
    var items := Items(read, n, 0, []).value;
    ItemsChained(read, n, 0, []);
    forall i, j | 0 <= i < j <= |items| ensures Start(items, i) < Start(items, j) {
      ChainAscends(read, n, items, i, j);
    }
  }

  /** An entry that shares nothing decodes the same without its predecessor. */
  ghost predicate Independent(read: Decoder) {
    forall start, prev | read(start, prev).Ok? && read(start, prev).value.shared == 0 ::
      read(start, []) == read(start, prev)
  }

  lemma DecoderIndependent(s: bytes)
    ensures Independent(DecoderOf(s))
  {
    var read := DecoderOf(s);
    forall start: nat, prev: bytes | read(start, prev).Ok? && read(start, prev).value.shared == 0
      ensures read(start, []) == read(start, prev)
    {
      assert prev[..0] == [];
    }
  }

  /** The position of the first entry whose key is not below the target. */
  function Find(items: seq<Item>, target: bytes): (i: nat)
    ensures i <= |items|
    ensures forall j | 0 <= j < i :: Less(items[j].key, target)
    ensures i < |items| ==> !Less(items[i].key, target)
  {
    if items == [] || !Less(items[0].key, target) then 0 else
      var i := 1 + Find(items[1..], target);
      assert forall j | 1 <= j < i :: items[j] == items[1..][j - 1];
      i
  }

  lemma {:induction false} FindIs(items: seq<Item>, target: bytes, i: nat)
    requires i <= |items|
    requires forall j | 0 <= j < i :: Less(items[j].key, target)
    requires i < |items| ==> !Less(items[i].key, target)
    ensures Find(items, target) == i
  {
  }

  // ----- Seeking -----

  /** The key of the entry at a restart, decoded without a predecessor. */
  function RestartKey(read: Decoder, offset: nat): bytes {
    var e := read(offset, []);
    if e.Ok? then e.value.key else []
  }

  /** The entry at a restart. */
  lemma RestartItem(read: Decoder, n: nat, restarts: seq<nat>, k: nat, items: seq<Item>) returns (i: nat)
    requires Checked(read, n, restarts, items) && Independent(read) && n > 0 && k < |restarts|
    ensures i < |items| && Start(items, i) == restarts[k] && (k == 0 ==> i == 0)
    ensures read(restarts[k], []) == Ok(items[i]) && RestartKey(read, restarts[k]) == items[i].key
  {
    assert RestartsAt(items, restarts[k]);
    i :| 0 <= i < |items| && Start(items, i) == restarts[k] && items[i].shared == 0;
    EntryOf(read, n, restarts, items, i);
    assert read(restarts[k], BeforeFrom([], items, i)) == Ok(items[i]);
    if i > 0 {
      ItemsAscend(read, n);
      assert Start(items, 0) < Start(items, i);
    }
  }

  lemma RestartKeysIncrease(read: Decoder, n: nat, restarts: seq<nat>, items: seq<Item>, a: nat, b: nat)
    requires Checked(read, n, restarts, items) && Independent(read) && n > 0 && a < b < |restarts|
    ensures Less(RestartKey(read, restarts[a]), RestartKey(read, restarts[b]))
  {
    var i := RestartItem(read, n, restarts, a, items);
    var j := RestartItem(read, n, restarts, b, items);
    ItemsAscend(read, n);
    assert restarts[a] < restarts[b];
  }

  lemma BelowTarget(items: seq<Item>, i: nat, target: bytes)
    requires KeysIncrease(items) && i < |items| && LessEq(items[i].key, target)
    ensures forall j | 0 <= j < i :: Less(items[j].key, target)
  {
    forall j | 0 <= j < i ensures Less(items[j].key, target) {
      assert Less(items[j].key, items[i].key);
      if items[i].key != target {
        LessTransitive(items[j].key, items[i].key, target);
      }
    }
  }

  predicate RestartAtMost(read: Decoder, restarts: seq<nat>, k: nat, target: bytes)
    requires k < |restarts|
  {
    LessEq(RestartKey(read, restarts[k]), target)
  }

  lemma RestartsPartitioned(read: Decoder, n: nat, restarts: seq<nat>, target: bytes, items: seq<Item>, a: nat, b: nat)
    requires Checked(read, n, restarts, items) && Independent(read) && n > 0 && a <= b < |restarts|
    requires RestartAtMost(read, restarts, b, target)
    ensures RestartAtMost(read, restarts, a, target)
  {
    if a < b {
      RestartKeysIncrease(read, n, restarts, items, a, b);
      if RestartKey(read, restarts[b]) != target {
        LessTransitive(RestartKey(read, restarts[a]), RestartKey(read, restarts[b]), target);
      }
    }
  }

  /** The last restart whose key is at most the target, or the first restart when there is none. */
  method RestartPartition(read: Decoder, ghost n: nat, restarts: seq<nat>, target: bytes, ghost items: seq<Item>)
      returns (k: nat)
    requires Checked(read, n, restarts, items) && Independent(read) && n > 0
    ensures k < |restarts| && (k > 0 ==> RestartAtMost(read, restarts, k, target))
    ensures forall j | k < j < |restarts| :: !RestartAtMost(read, restarts, j, target)
  {
    var lo, hi := 0, |restarts|;
    while lo < hi
      invariant 0 <= lo <= hi <= |restarts|
      invariant forall j | 0 <= j < lo :: RestartAtMost(read, restarts, j, target)
      invariant forall j | hi <= j < |restarts| :: !RestartAtMost(read, restarts, j, target)
    {
      var mid := (lo + hi) / 2;
      if RestartAtMost(read, restarts, mid, target) {
        forall j | 0 <= j <= mid ensures RestartAtMost(read, restarts, j, target) {
          RestartsPartitioned(read, n, restarts, target, items, j, mid);
        }
        lo := mid + 1;
      } else {
        forall j | mid <= j < |restarts| ensures !RestartAtMost(read, restarts, j, target) {
          if RestartAtMost(read, restarts, j, target) {
            RestartsPartitioned(read, n, restarts, target, items, mid, j);
          }
        }
        hi := mid;
      }
    }
    k := if lo == 0 then 0 else lo - 1;
  }

  function PairAt(items: seq<Item>, i: nat): Option<(bytes, bytes)> {
    if i < |items| then Some((items[i].key, items[i].value)) else None
  }

  /** Walks from one entry to the first that is not below the target. */
  method SeekFrom(read: Decoder, n: nat, start: nat, target: bytes, ghost items: seq<Item>, ghost from: nat)
      returns (r: Option<(bytes, bytes)>)
    requires Chained(read, n, 0, [], items) && from < |items| && start == Start(items, from)
    requires read(start, []) == Ok(items[from]) && forall j | 0 <= j < from :: Less(items[j].key, target)
    ensures r == PairAt(items, Find(items, target))
  {
    var cursor, previous: bytes := start, [];
    ghost var i: nat := from;
    assert Linked(read, n, 0, [], items, i);
    while cursor < n
      invariant i <= |items| && cursor == Start(items, i)
      invariant i < |items| ==> ReadsAs(read, n, cursor, previous, items[i])
      invariant forall j | 0 <= j < i :: Less(items[j].key, target)
      decreases n - cursor
    {
      var e := read(cursor, previous);
      if !Less(e.value.key, target) {
        FindIs(items, target, i);
        return Some((e.value.key, e.value.value));
      }
      previous := e.value.key;
      cursor := e.value.next;
      i := i + 1;
      if i < |items| {
        assert Linked(read, n, 0, [], items, i);
      }
    }
    FindIs(items, target, i);
    return None;
  }

  method SeekWith(read: Decoder, n: nat, restarts: seq<nat>, target: bytes, ghost items: seq<Item>)
      returns (r: Option<(bytes, bytes)>)
    requires Checked(read, n, restarts, items) && Independent(read) && n > 0
    ensures r == PairAt(items, Find(items, target))
  {
    var k := RestartPartition(read, n, restarts, target, items);
    ghost var from := RestartItem(read, n, restarts, k, items);
    if k > 0 {
      BelowTarget(items, from, target);
    }
    ItemsChained(read, n, 0, []);
    r := SeekFrom(read, n, restarts[k], target, items, from);
  }

  /** Seeking through the restart points is a linear lower bound over the entries. */
  method Seek(b: Block, target: bytes) returns (r: Option<(bytes, bytes)>)
    requires Valid(b)
    ensures r == PairAt(Contents(b), Find(Contents(b), target))
  {
    ghost var items := Contents(b);
    EndOf(DecoderOf(b.entries), |b.entries|, b.restarts, items);
    if b.count == 0 {
      return None;
    }
    if b.entries == [] {
      assert false;
    }
    DecoderIndependent(b.entries);
    r := SeekWith(DecoderOf(b.entries), |b.entries|, b.restarts, target, items);
  }
}
