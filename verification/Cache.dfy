/** The block cache: two byte-budgeted partitions, each refining an ideal recency list. */
module Caches {
  import opened Bytes

  datatype BlockKind = Index | Filter | Data

  datatype CacheKey = CacheKey(file: u64, offset: u64, kind: BlockKind)

  // ----- The ideal: entries from least to most recently used -----

  type Recency = seq<(CacheKey, bytes)>

  function Usage(list: Recency): nat {
    if list == [] then 0 else |list[0].1| + Usage(list[1..])
  }

  predicate Listed(list: Recency, k: CacheKey) {
    exists i | 0 <= i < |list| :: list[i].0 == k
  }

  function Without(list: Recency, k: CacheKey): (r: Recency)
    ensures |r| <= |list|
  {
    if list == [] then [] else if list[0].0 == k then list[1..] else [list[0]] + Without(list[1..], k)
  }

  function Lookup(list: Recency, k: CacheKey): Option<bytes> {
    if list == [] then None else if list[0].0 == k then Some(list[0].1) else Lookup(list[1..], k)
  }

  /** A hit moves its entry to the recent end. */
  function Touched(list: Recency, k: CacheKey): Recency {
    var v := Lookup(list, k);
    if v.None? then list else Without(list, k) + [(k, v.value)]
  }

  /** Drops least recently used entries until `need` more bytes fit. */
  function Trimmed(list: Recency, need: nat, capacity: nat): (r: Recency)
    requires need <= capacity
    ensures Usage(r) + need <= capacity
  {
    if Usage(list) + need <= capacity then list else Trimmed(list[1..], need, capacity)
  }

  /** An admitted block replaces its predecessor and becomes the most recent entry. */
  function Admitted(list: Recency, k: CacheKey, v: bytes, capacity: nat): Recency {
    if |v| > capacity then list else Trimmed(Without(list, k), |v|, capacity) + [(k, v)]
  }

  /** Eviction drops no more than it must: the kept entries are the longest recent end that fits. */
  lemma {:induction false} TrimmedSuffix(list: Recency, need: nat, capacity: nat) returns (i: nat)
    requires need <= capacity
    ensures i <= |list| && Trimmed(list, need, capacity) == list[i..]
    ensures i > 0 ==> Usage(list[i - 1..]) + need > capacity
  {
    if Usage(list) + need <= capacity {
      i := 0;
    } else {
      var j := TrimmedSuffix(list[1..], need, capacity);
      i := j + 1;
      assert list[1..][j..] == list[i..];
      assert j > 0 ==> list[1..][j - 1..] == list[i - 1..];
      assert j == 0 ==> list[0..] == list;
    }
  }

  // ----- Stamped partitions -----

  datatype Slot = Slot(value: bytes, stamp: u64)

  datatype Partition = Partition(capacity: nat, usage: nat, entries: map<CacheKey, Slot>)

  predicate Placed(p: Partition, list: Recency, i: nat)
    requires i < |list|
  {
    list[i].0 in p.entries && p.entries[list[i].0].value == list[i].1
  }

  predicate Older(p: Partition, a: CacheKey, b: CacheKey) {
    a in p.entries && b in p.entries && a != b && p.entries[a].stamp < p.entries[b].stamp
  }

  /** The partition holds exactly the list, stamps run along it, and usage is the sum of the retained lengths. */
  ghost predicate Shows(p: Partition, list: Recency, next: nat) {
    && (forall i | 0 <= i < |list| :: Placed(p, list, i))
    && (forall k | k in p.entries :: Listed(list, k) && p.entries[k].stamp < next)
    && (forall i, j | 0 <= i < j < |list| :: Older(p, list[i].0, list[j].0))
    && p.usage == Usage(list) <= p.capacity
  }

  /** The lists a partition shows. */
  ghost function Lists(p: Partition, next: nat): iset<Recency> {
    iset list: Recency | Shows(p, list, next)
  }

  lemma {:induction false} UsageConcat(a: Recency, b: Recency)
    ensures Usage(a + b) == Usage(a) + Usage(b)
  {
    if a == [] {
      assert a + b == b;
    } else {
      UsageConcat(a[1..], b);
      assert (a + b)[1..] == a[1..] + b;
    }
  }

  lemma CutCons(list: Recency, i: nat)
    requires 0 < i < |list|
    ensures [list[0]] + (list[1..][..i - 1] + list[1..][i..]) == list[..i] + list[i + 1..]
  {
  }

  /** Where the entry of a listed key stands. */
  lemma {:induction false} WithoutAt(list: Recency, k: CacheKey, i: nat)
    requires i < |list| && list[i].0 == k && forall j | 0 <= j < i :: list[j].0 != k
    ensures Without(list, k) == list[..i] + list[i + 1..] && Lookup(list, k) == Some(list[i].1)
    decreases i
  {
    if i > 0 {
      assert list[0].0 != k;
      assert forall j | 0 <= j < i - 1 :: list[1..][j] == list[j + 1];
      WithoutAt(list[1..], k, i - 1);
      CutCons(list, i);
    } else {
      assert list[..0] == [] && [] + list[1..] == list[1..];
    }
  }

  lemma UsageCut(list: Recency, i: nat)
    requires i < |list|
    ensures Usage(list) == Usage(list[..i] + list[i + 1..]) + |list[i].1|
  {
    assert list == list[..i] + ([list[i]] + list[i + 1..]);
    UsageConcat(list[..i], [list[i]] + list[i + 1..]);
    UsageConcat(list[..i], list[i + 1..]);
    assert ([list[i]] + list[i + 1..])[1..] == list[i + 1..];
  }

  lemma {:induction false} WithoutNone(list: Recency, k: CacheKey)
    requires !Listed(list, k)
    ensures Without(list, k) == list && Lookup(list, k) == None
  {
    if list != [] {
      assert list[0].0 != k;
      assert forall i | 0 <= i < |list| - 1 :: list[1..][i] == list[i + 1];
      WithoutNone(list[1..], k);
    }
  }

  /** The one position of a key that the partition holds. */
  lemma PositionOf(p: Partition, list: Recency, next: nat, k: CacheKey) returns (i: nat)
    requires Shows(p, list, next) && k in p.entries
    ensures i < |list| && list[i].0 == k && forall j | 0 <= j < |list| && j != i :: list[j].0 != k
    ensures p.entries[k].value == list[i].1
  {
    assert Listed(list, k);
    i :| 0 <= i < |list| && list[i].0 == k;
    forall j | 0 <= j < |list| && j != i ensures list[j].0 != k {
      assert j < i ==> Older(p, list[j].0, list[i].0);
      assert i < j ==> Older(p, list[i].0, list[j].0);
    }
    assert Placed(p, list, i);
  }

  lemma NotListed(p: Partition, list: Recency, next: nat, k: CacheKey)
    requires Shows(p, list, next) && k !in p.entries
    ensures !Listed(list, k)
  {
    forall i | 0 <= i < |list| ensures list[i].0 != k {
      assert Placed(p, list, i);
    }
  }

  /** Reading the partition reads the list. */
  lemma LookupShown(p: Partition, list: Recency, next: nat, k: CacheKey)
    requires Shows(p, list, next)
    ensures Lookup(list, k) == if k in p.entries then Some(p.entries[k].value) else None
  {
    if k in p.entries {
      var i := PositionOf(p, list, next, k);
      WithoutAt(list, k, i);
    } else {
      NotListed(p, list, next, k);
      WithoutNone(list, k);
    }
  }

  function Dropped(p: Partition, k: CacheKey): Partition {
    if k !in p.entries then p else
      var n := |p.entries[k].value|;
      Partition(p.capacity, if n <= p.usage then p.usage - n else 0, p.entries - {k})
  }

  lemma CutOrder(p: Partition, list: Recency, next: nat, i: nat)
    requires Shows(p, list, next) && i < |list| && forall j | 0 <= j < |list| && j != i :: list[j].0 != list[i].0
    ensures var q, r := Dropped(p, list[i].0), list[..i] + list[i + 1..];
            forall x, y | 0 <= x < y < |r| :: Older(q, r[x].0, r[y].0)
  {
    var q, r := Dropped(p, list[i].0), list[..i] + list[i + 1..];
    forall x, y | 0 <= x < y < |r| ensures Older(q, r[x].0, r[y].0) {
      CutAt(list, i, x);
      CutAt(list, i, y);
      assert Older(p, list[Skipping(i, x)].0, list[Skipping(i, y)].0);
    }
  }

  /** A list with one position cut out. */
  lemma CutOut(p: Partition, list: Recency, next: nat, i: nat)
    requires Shows(p, list, next) && i < |list| && forall j | 0 <= j < |list| && j != i :: list[j].0 != list[i].0
    ensures Shows(Dropped(p, list[i].0), list[..i] + list[i + 1..], next)
  {
    var q, r := Dropped(p, list[i].0), list[..i] + list[i + 1..];
    UsageCut(list, i);
    assert Placed(p, list, i);
    forall j | 0 <= j < |r| ensures Placed(q, r, j) {
      CutAt(list, i, j);
      assert Placed(p, list, Skipping(i, j));
    }
    CutOrder(p, list, next, i);
    forall m | m in q.entries ensures Listed(r, m) {
      CutListed(list, i, m);
    }
  }

  function Skipping(i: nat, j: nat): nat {
    if j < i then j else j + 1
  }

  lemma CutAt(list: Recency, i: nat, j: nat)
    requires i < |list| && j < |list| - 1
    ensures (list[..i] + list[i + 1..])[j] == list[Skipping(i, j)]
  {
  }

  lemma CutListed(list: Recency, i: nat, m: CacheKey)
    requires i < |list| && Listed(list, m) && list[i].0 != m
    ensures Listed(list[..i] + list[i + 1..], m)
  {
    var j :| 0 <= j < |list| && list[j].0 == m;
    CutAt(list, i, if j < i then j else j - 1);
  }

  lemma DropShown(p: Partition, list: Recency, next: nat, k: CacheKey)
    requires Shows(p, list, next)
    ensures Shows(Dropped(p, k), Without(list, k), next)
  {
    if k in p.entries {
      var i := PositionOf(p, list, next, k);
      WithoutAt(list, k, i);
      CutOut(p, list, next, i);
    } else {
      NotListed(p, list, next, k);
      WithoutNone(list, k);
    }
  }

  /** The entry with the smallest stamp is the least recently used one. */
  lemma OldestShown(p: Partition, list: Recency, next: nat, k: CacheKey)
    requires Shows(p, list, next) && k in p.entries
    requires forall m | m in p.entries :: p.entries[k].stamp <= p.entries[m].stamp
    ensures list != [] && list[0].0 == k && Shows(Dropped(p, k), list[1..], next)
  {
    var i := PositionOf(p, list, next, k);
    assert Placed(p, list, 0);
    assert 0 < i ==> Older(p, list[0].0, list[i].0);
    DropShown(p, list, next, k);
  }

  function WithEntry(p: Partition, k: CacheKey, v: bytes, stamp: u64): Partition {
    Partition(p.capacity, p.usage + |v|, p.entries[k := Slot(v, stamp)])
  }

  lemma AddShown(p: Partition, list: Recency, next: u64, k: CacheKey, v: bytes)
    requires Shows(p, list, next) && k !in p.entries && p.usage + |v| <= p.capacity
    ensures Shows(WithEntry(p, k, v, next), list + [(k, v)], next + 1)
  {
    var q, r := WithEntry(p, k, v, next), list + [(k, v)];
    UsageConcat(list, [(k, v)]);
    forall i | 0 <= i < |r| ensures Placed(q, r, i) {
      if i < |list| {
        assert Placed(p, list, i);
      }
    }
    forall i, j | 0 <= i < j < |r| ensures Older(q, r[i].0, r[j].0) {
      assert Placed(p, list, i);
      if j < |list| {
        assert Older(p, list[i].0, list[j].0);
      }
    }
    forall m | m in q.entries ensures Listed(r, m) {
      if m == k {
        assert r[|list|].0 == k;
      } else {
        assert Listed(list, m);
        var i :| 0 <= i < |list| && list[i].0 == m;
        assert r[i].0 == m;
      }
    }
  }

  lemma ShowsLater(p: Partition, list: Recency, next: nat, later: nat)
    requires Shows(p, list, next) && next <= later
    ensures Shows(p, list, later)
  {
  }

  // ----- Renewing stamps -----

  predicate Rises(old': map<CacheKey, u64>, ranks: map<CacheKey, u64>, a: CacheKey, b: CacheKey)
    requires a in old' && b in old' && a in ranks && b in ranks
  {
    old'[a] < old'[b] ==> ranks[a] < ranks[b]
  }

  function Restamped(p: Partition, ranks: map<CacheKey, u64>): Partition
    requires forall k | k in p.entries :: k in ranks
  {
    p.(entries := map k | k in p.entries :: p.entries[k].(stamp := ranks[k]))
  }

  function StampsOf(p: Partition): map<CacheKey, u64> {
    map k | k in p.entries :: p.entries[k].stamp
  }

  /** Any ranking that keeps the order of stamps keeps the list. */
  lemma RestampShown(p: Partition, list: Recency, next: nat, stamps: map<CacheKey, u64>, ranks: map<CacheKey, u64>,
                     count: nat)
    requires Shows(p, list, next)
    requires forall k | k in p.entries ::
               k in ranks && k in stamps && stamps[k] == p.entries[k].stamp && ranks[k] < count
    requires forall a, b | a in p.entries && b in p.entries :: Rises(stamps, ranks, a, b)
    ensures Shows(Restamped(p, ranks), list, count)
  {
    var q := Restamped(p, ranks);
    forall i | 0 <= i < |list| ensures Placed(q, list, i) {
      assert Placed(p, list, i);
    }
    forall i, j | 0 <= i < j < |list| ensures Older(q, list[i].0, list[j].0) {
      assert Older(p, list[i].0, list[j].0);
      assert Rises(stamps, ranks, list[i].0, list[j].0);
    }
  }

  /** Some key with the smallest stamp. */
  method Smallest(stamps: map<CacheKey, u64>) returns (k: CacheKey)
    requires stamps != map[]
    ensures k in stamps && forall m | m in stamps :: stamps[k] <= stamps[m]
  {
    var rest := stamps.Keys;
    k :| k in rest;
    rest := rest - {k};
    while rest != {}
      invariant rest <= stamps.Keys && k in stamps
      invariant forall m | m in stamps && m !in rest :: stamps[k] <= stamps[m]
      decreases |rest|
    {
      var m :| m in rest;
      if stamps[m] < stamps[k] {
        k := m;
      }
      rest := rest - {m};
    }
  }

  /** Ranks all keys by stamp: the smallest first. */
  method Ranked(stamps: map<CacheKey, u64>) returns (ranks: map<CacheKey, u64>)
    requires |stamps| <= U64_MAX
    ensures ranks.Keys == stamps.Keys && forall k | k in ranks :: ranks[k] < |stamps|
    ensures forall a, b | a in stamps && b in stamps :: Rises(stamps, ranks, a, b)
  {
    var rest := stamps;
    ranks := map[];
    while rest != map[]
      invariant RankedSoFar(stamps, rest, ranks)
      decreases |rest|
    {
      var k := Smallest(rest);
      RankStep(stamps, rest, ranks, k);
      RestShrinks(rest, k);
      ranks := ranks[k := |ranks|];
      rest := rest - {k};
    }
  }

  ghost predicate RankedSoFar(stamps: map<CacheKey, u64>, rest: map<CacheKey, u64>, ranks: map<CacheKey, u64>) {
    && rest.Keys <= stamps.Keys && ranks.Keys == stamps.Keys - rest.Keys && |ranks| + |rest| == |stamps|
    && (forall k | k in rest :: rest[k] == stamps[k])
    && (forall k | k in ranks :: ranks[k] < |ranks|)
    && (forall a, b | a in ranks && b in rest :: stamps[a] <= stamps[b])
    && (forall a, b | a in ranks && b in ranks :: Rises(stamps, ranks, a, b))
  }

  lemma RankStep(stamps: map<CacheKey, u64>, rest: map<CacheKey, u64>, ranks: map<CacheKey, u64>, k: CacheKey)
    requires RankedSoFar(stamps, rest, ranks) && k in rest && forall m | m in rest :: rest[k] <= rest[m]
    requires |ranks| < U64_MAX
    ensures RankedSoFar(stamps, rest - {k}, ranks[k := |ranks|])
  {
    RestShrinks(rest, k);
    var more := ranks[k := |ranks|];
    RanksGrow(ranks, k);
    forall a, b | a in more && b in more ensures Rises(stamps, more, a, b) {
      RisesMore(stamps, rest, ranks, k, a, b);
    }
    StillBelow(stamps, rest, ranks, k);
  }

  lemma StillBelow(stamps: map<CacheKey, u64>, rest: map<CacheKey, u64>, ranks: map<CacheKey, u64>, k: CacheKey)
    requires RankedSoFar(stamps, rest, ranks) && k in rest && forall m | m in rest :: rest[k] <= rest[m]
    requires |ranks| < U64_MAX
    ensures forall a, b | a in ranks[k := |ranks|] && b in rest - {k} :: stamps[a] <= stamps[b]
  {
  }

  lemma RanksGrow(ranks: map<CacheKey, u64>, k: CacheKey)
    requires k !in ranks && |ranks| < U64_MAX && forall m | m in ranks :: ranks[m] < |ranks|
    ensures var more := ranks[k := |ranks|];
            more.Keys == ranks.Keys + {k} && |more| == |ranks| + 1 && forall m | m in more :: more[m] < |more|
  {
    assert ranks[k := |ranks|].Keys == ranks.Keys + {k};
  }

  lemma RisesMore(stamps: map<CacheKey, u64>, rest: map<CacheKey, u64>, ranks: map<CacheKey, u64>, k: CacheKey,
                  a: CacheKey, b: CacheKey)
    requires RankedSoFar(stamps, rest, ranks) && k in rest && |ranks| < U64_MAX
    requires (a in ranks || a == k) && (b in ranks || b == k)
    ensures Rises(stamps, ranks[k := |ranks|], a, b)
  {
    if a != k && b != k {
      assert Rises(stamps, ranks, a, b);
    }
  }

  lemma RestShrinks(rest: map<CacheKey, u64>, k: CacheKey)
    requires k in rest
    ensures |rest - {k}| == |rest| - 1
  {
    assert (rest - {k}).Keys == rest.Keys - {k};
  }

  // ----- The cache -----

  predicate IsData(kind: BlockKind) {
    kind == Data
  }

  function PartitionOf(metadata: Partition, data: Partition, kind: BlockKind): Partition {
    if IsData(kind) then data else metadata
  }

  /** Keys live in the partition of their kind. */
  predicate Sorted(p: Partition, data: bool) {
    forall k | k in p.entries :: IsData(k.kind) == data
  }

  class BlockCache {
    var metadata: Partition
    var data: Partition
    var nextStamp: u64
    ghost var metaList: Recency
    ghost var dataList: Recency

    ghost predicate Valid()
      reads this
    {
      && metaList in Lists(metadata, nextStamp) && dataList in Lists(data, nextStamp)
      && Sorted(metadata, false) && Sorted(data, true)
    }

    /** Fewer entries than stamps; a map with more would not fit in memory. */
    predicate Counted()
      reads this
    {
      |metadata.entries| + |data.entries| < U64_MAX
    }

    /** One fifth of the budget goes to index and filter blocks. */
    constructor (total: nat)
      ensures Valid() && Counted() && metaList == [] && dataList == []
      ensures metadata.capacity == total / 5 && data.capacity == total - total / 5
    {
      metadata, data, nextStamp := Partition(total / 5, 0, map[]), Partition(total - total / 5, 0, map[]), 0;
      metaList, dataList := [], [];
    }

    /** Replaces all stamps by their ranks, so that neither list changes. */
    method Renormalize()
      requires Valid() && Counted()
      modifies this`metadata, this`data, this`nextStamp
      ensures Valid() && Counted() && nextStamp < U64_MAX
      ensures metadata.capacity == old(metadata.capacity) && data.capacity == old(data.capacity)
      ensures |metadata.entries| == |old(metadata.entries)| && |data.entries| == |old(data.entries)|
    {
      metadata, data, nextStamp := RestampAll(metadata, data, metaList, dataList, nextStamp);
    }

    /** A stamp above every stamp in use. */
    method BumpStamp() returns (stamp: u64)
      requires Valid() && Counted()
      modifies this`metadata, this`data, this`nextStamp
      ensures Stamped(stamp) && stamp < U64_MAX && Counted()
      ensures metadata.capacity == old(metadata.capacity) && data.capacity == old(data.capacity)
      ensures |metadata.entries| == |old(metadata.entries)| && |data.entries| == |old(data.entries)|
    {
      if nextStamp == U64_MAX {
        Renormalize();
      }
      stamp := nextStamp;
      nextStamp := nextStamp + 1;
    }

    /** A hit returns the block and makes it the most recent of its partition; the other partition keeps its list. */
    method Get(file: u64, offset: u64, kind: BlockKind) returns (r: Option<bytes>)
      requires Valid() && Counted()
      modifies this
      ensures Valid() && Counted()
      ensures IsData(kind) ==>
                var k := CacheKey(file, offset, kind);
                r == Lookup(old(dataList), k) && dataList == Touched(old(dataList), k) && metaList == old(metaList)
      ensures !IsData(kind) ==>
                var k := CacheKey(file, offset, kind);
                r == Lookup(old(metaList), k) && metaList == Touched(old(metaList), k) && dataList == old(dataList)
      ensures metadata.capacity == old(metadata.capacity) && data.capacity == old(data.capacity)
    {
      var k := CacheKey(file, offset, kind);
      var stamp := BumpStamp();
      if IsData(kind) {
        r := TouchData(k, stamp);
      } else {
        r := TouchMetadata(k, stamp);
      }
    }

    /** All stamps are below `stamp`, the one just taken. */
    ghost predicate Stamped(stamp: u64)
      reads this
    {
      && metaList in Lists(metadata, stamp) && dataList in Lists(data, stamp) && nextStamp == stamp + 1
      && Sorted(metadata, false) && Sorted(data, true)
    }

    method TouchData(k: CacheKey, stamp: u64) returns (r: Option<bytes>)
      requires Stamped(stamp) && stamp < U64_MAX && IsData(k.kind)
      modifies this`data, this`dataList
      ensures Valid() && data.capacity == old(data.capacity) && |data.entries| == |old(data.entries)|
      ensures r == Lookup(old(dataList), k) && dataList == Touched(old(dataList), k)
    {
      r, data := TouchIn(data, k, stamp, dataList);
      dataList := Touched(dataList, k);
      ListsLater(metadata, metaList, stamp, nextStamp);
    }

    method TouchMetadata(k: CacheKey, stamp: u64) returns (r: Option<bytes>)
      requires Stamped(stamp) && stamp < U64_MAX && !IsData(k.kind)
      modifies this`metadata, this`metaList
      ensures Valid() && metadata.capacity == old(metadata.capacity) && |metadata.entries| == |old(metadata.entries)|
      ensures r == Lookup(old(metaList), k) && metaList == Touched(old(metaList), k)
    {
      r, metadata := TouchIn(metadata, k, stamp, metaList);
      metaList := Touched(metaList, k);
      ListsLater(data, dataList, stamp, nextStamp);
    }

    /** Admits a block exactly when it fits its partition's budget, evicting the least recent blocks as needed. */
    method Insert(file: u64, offset: u64, kind: BlockKind, value: bytes) returns (ok: bool)
      requires Valid() && |metadata.entries| + |data.entries| + 1 < U64_MAX
      modifies this
      ensures Valid() && Counted()
      ensures ok <==> |value| <= PartitionOf(old(metadata), old(data), kind).capacity
      ensures IsData(kind) ==>
                var k := CacheKey(file, offset, kind);
                dataList == Admitted(old(dataList), k, value, data.capacity) && metaList == old(metaList)
      ensures !IsData(kind) ==>
                var k := CacheKey(file, offset, kind);
                metaList == Admitted(old(metaList), k, value, metadata.capacity) && dataList == old(dataList)
      ensures metadata.capacity == old(metadata.capacity) && data.capacity == old(data.capacity)
    {
      var k := CacheKey(file, offset, kind);
      if |value| > PartitionOf(metadata, data, kind).capacity {
        return false;
      }
      var stamp := BumpStamp();
      if IsData(kind) {
        AdmitData(k, value, stamp);
      } else {
        AdmitMetadata(k, value, stamp);
      }
      return true;
    }

    method AdmitData(k: CacheKey, value: bytes, stamp: u64)
      requires Stamped(stamp) && stamp < U64_MAX && IsData(k.kind) && |value| <= data.capacity
      modifies this`data, this`dataList
      ensures Valid() && data.capacity == old(data.capacity) && |data.entries| <= |old(data.entries)| + 1
      ensures dataList == Admitted(old(dataList), k, value, data.capacity)
    {
      data := AdmitIn(data, k, value, stamp, dataList);
      dataList := Admitted(dataList, k, value, data.capacity);
      ListsLater(metadata, metaList, stamp, nextStamp);
    }

    method AdmitMetadata(k: CacheKey, value: bytes, stamp: u64)
      requires Stamped(stamp) && stamp < U64_MAX && !IsData(k.kind) && |value| <= metadata.capacity
      modifies this`metadata, this`metaList
      ensures Valid() && metadata.capacity == old(metadata.capacity)
      ensures |metadata.entries| <= |old(metadata.entries)| + 1
      ensures metaList == Admitted(old(metaList), k, value, metadata.capacity)
    {
      metadata := AdmitIn(metadata, k, value, stamp, metaList);
      metaList := Admitted(metaList, k, value, metadata.capacity);
      ListsLater(data, dataList, stamp, nextStamp);
    }
  }

  lemma ListsLater(p: Partition, list: Recency, next: nat, later: nat)
    requires list in Lists(p, next) && next <= later
    ensures list in Lists(p, later)
  {
    ShowsLater(p, list, next, later);
  }

  method TouchIn(p: Partition, k: CacheKey, stamp: u64, ghost list: Recency) returns (r: Option<bytes>, q: Partition)
    requires list in Lists(p, stamp) && stamp < U64_MAX && Sorted(p, IsData(k.kind))
    ensures r == Lookup(list, k) && Touched(list, k) in Lists(q, stamp + 1)
    ensures q.capacity == p.capacity && |q.entries| == |p.entries| && Sorted(q, IsData(k.kind))
  {
    LookupShown(p, list, stamp, k);
    if k !in p.entries {
      ShowsLater(p, list, stamp, stamp + 1);
      return None, p;
    }
    var v := p.entries[k].value;
    q := p.(entries := p.entries[k := Slot(v, stamp)]);
    TouchShown(p, list, stamp, k);
    SameCount(p.entries, k, Slot(v, stamp));
    return Some(v), q;
  }

  lemma SameCount(m: map<CacheKey, Slot>, k: CacheKey, s: Slot)
    requires k in m
    ensures |m[k := s]| == |m|
  {
    assert m[k := s].Keys == m.Keys;
  }

  lemma MoreCount(m: map<CacheKey, Slot>, k: CacheKey, s: Slot)
    requires k !in m
    ensures |m[k := s]| == |m| + 1
  {
    assert m[k := s].Keys == m.Keys + {k};
  }

  lemma LessCount(m: map<CacheKey, Slot>, k: CacheKey)
    requires k in m
    ensures |m - {k}| == |m| - 1
  {
    assert (m - {k}).Keys == m.Keys - {k};
  }

  lemma TouchShown(p: Partition, list: Recency, stamp: u64, k: CacheKey)
    requires Shows(p, list, stamp) && k in p.entries
    ensures Shows(p.(entries := p.entries[k := Slot(p.entries[k].value, stamp)]), Touched(list, k), stamp + 1)
  {
    var v := p.entries[k].value;
    LookupShown(p, list, stamp, k);
    UsageOf(p, list, stamp, k);
    DropShown(p, list, stamp, k);
    AddShown(Dropped(p, k), Without(list, k), stamp, k, v);
    assert WithEntry(Dropped(p, k), k, v, stamp).entries == p.entries[k := Slot(v, stamp)];
  }

  lemma UsageOf(p: Partition, list: Recency, next: nat, k: CacheKey)
    requires Shows(p, list, next) && k in p.entries
    ensures |p.entries[k].value| <= p.usage
  {
    var i := PositionOf(p, list, next, k);
    UsageCut(list, i);
  }

  /** Removes a key, if it is there, and its bytes from the usage. */
  method DropIn(p: Partition, k: CacheKey, ghost list: Recency, ghost next: nat) returns (q: Partition)
    requires list in Lists(p, next)
    ensures q == Dropped(p, k) && Without(list, k) in Lists(q, next) && |q.entries| <= |p.entries| && k !in q.entries
  {
    DropShown(p, list, next, k);
    if k !in p.entries {
      return p;
    }
    UsageOf(p, list, next, k);
    LessCount(p.entries, k);
    q := Partition(p.capacity, p.usage - |p.entries[k].value|, p.entries - {k});
  }

  /** Removes the entry with the smallest stamp: the head of the list. */
  method EvictOldest(p: Partition, ghost list: Recency, ghost next: nat) returns (q: Partition, oldest: CacheKey)
    requires list in Lists(p, next) && p.usage > 0
    ensures list != [] && list[1..] in Lists(q, next) && q == Dropped(p, oldest) && |q.entries| <= |p.entries|
  {
    NonEmpty(p, list, next);
    oldest := Smallest(StampsOf(p));
    forall m | m in p.entries ensures p.entries[oldest].stamp <= p.entries[m].stamp {
      assert m in StampsOf(p);
    }
    OldestShown(p, list, next, oldest);
    q := DropIn(p, oldest, list, next);
  }

  lemma DroppedSorted(p: Partition, k: CacheKey, data: bool)
    requires Sorted(p, data)
    ensures Sorted(Dropped(p, k), data) && Dropped(p, k).capacity == p.capacity
    ensures forall m | m !in p.entries :: m !in Dropped(p, k).entries
  {
  }

  /** Evicts from the head of the list until the block fits. */
  method MakeRoom(p: Partition, k: CacheKey, need: nat, ghost list: Recency, ghost next: nat) returns (q: Partition)
    requires list in Lists(p, next) && need <= p.capacity && Sorted(p, IsData(k.kind)) && k !in p.entries
    ensures Trimmed(list, need, p.capacity) in Lists(q, next) && q.usage + need <= q.capacity == p.capacity
    ensures |q.entries| <= |p.entries| && Sorted(q, IsData(k.kind)) && k !in q.entries
  {
    q := p;
    ghost var kept := list;
    UsageIs(q, kept, next);
    while q.usage + need > q.capacity
      invariant kept in Lists(q, next) && q.capacity == p.capacity && Usage(kept) == q.usage
      invariant Trimmed(kept, need, q.capacity) == Trimmed(list, need, p.capacity)
      invariant |q.entries| <= |p.entries| && Sorted(q, IsData(k.kind)) && k !in q.entries
      decreases |kept|
    {
      var r, oldest := EvictOldest(q, kept, next);
      DroppedSorted(q, oldest, IsData(k.kind));
      kept := kept[1..];
      q := r;
      UsageIs(q, kept, next);
    }
  }

  lemma UsageIs(p: Partition, list: Recency, next: nat)
    requires list in Lists(p, next)
    ensures Usage(list) == p.usage <= p.capacity
  {
  }

  method AdmitIn(p: Partition, k: CacheKey, value: bytes, stamp: u64, ghost list: Recency) returns (q: Partition)
    requires list in Lists(p, stamp) && stamp < U64_MAX && |value| <= p.capacity && Sorted(p, IsData(k.kind))
    ensures Admitted(list, k, value, p.capacity) in Lists(q, stamp + 1)
    ensures q.capacity == p.capacity && |q.entries| <= |p.entries| + 1 && Sorted(q, IsData(k.kind))
  {
    q := DropIn(p, k, list, stamp);
    DroppedSorted(p, k, IsData(k.kind));
    ghost var kept := Without(list, k);
    var r := MakeRoom(q, k, |value|, kept, stamp);
    assert Shows(r, Trimmed(kept, |value|, p.capacity), stamp);
    AddShown(r, Trimmed(kept, |value|, p.capacity), stamp, k, value);
    MoreCount(r.entries, k, Slot(value, stamp));
    q := Partition(r.capacity, r.usage + |value|, r.entries[k := Slot(value, stamp)]);
  }

  lemma NonEmpty(p: Partition, list: Recency, next: nat)
    requires Shows(p, list, next) && p.usage > 0
    ensures p.entries != map[] && StampsOf(p) != map[]
  {
    assert list != [];
    assert Placed(p, list, 0);
    assert list[0].0 in StampsOf(p);
  }

  method RestampAll(m: Partition, d: Partition, ghost metaList: Recency, ghost dataList: Recency, ghost next: nat)
      returns (m': Partition, d': Partition, count: u64)
    requires metaList in Lists(m, next) && dataList in Lists(d, next) && Sorted(m, false) && Sorted(d, true)
    requires |m.entries| + |d.entries| < U64_MAX
    ensures count == |m.entries| + |d.entries| && metaList in Lists(m', count) && dataList in Lists(d', count)
    ensures m'.capacity == m.capacity && |m'.entries| == |m.entries|
    ensures d'.capacity == d.capacity && |d'.entries| == |d.entries|
    ensures Sorted(m', false) && Sorted(d', true)
  {
    var ranks := RanksOf(m, d);
    m', d', count := Restamped(m, ranks), Restamped(d, ranks), |m.entries| + |d.entries|;
    RestampLists(m, d, metaList, dataList, next, ranks, m', d', count);
  }

  /** The rankings of a set of stamps. */
  ghost function RankMaps(stamps: map<CacheKey, u64>): iset<map<CacheKey, u64>> {
    iset ranks: map<CacheKey, u64> |
      && ranks.Keys == stamps.Keys && (forall k | k in ranks :: ranks[k] < |stamps|)
      && forall a, b | a in stamps && b in stamps :: Rises(stamps, ranks, a, b)
  }

  method RanksOf(m: Partition, d: Partition) returns (ranks: map<CacheKey, u64>)
    requires Sorted(m, false) && Sorted(d, true) && |m.entries| + |d.entries| < U64_MAX
    ensures ranks in RankMaps(StampsOf(m) + StampsOf(d)) && m.entries.Keys + d.entries.Keys <= ranks.Keys
  {
    StampCount(m, d);
    ranks := Ranked(StampsOf(m) + StampsOf(d));
  }

  lemma RestampLists(m: Partition, d: Partition, metaList: Recency, dataList: Recency, next: nat,
                     ranks: map<CacheKey, u64>, m': Partition, d': Partition, count: nat)
    requires metaList in Lists(m, next) && dataList in Lists(d, next) && Sorted(m, false) && Sorted(d, true)
    requires ranks in RankMaps(StampsOf(m) + StampsOf(d)) && m.entries.Keys + d.entries.Keys <= ranks.Keys
    requires m' == Restamped(m, ranks) && d' == Restamped(d, ranks) && count == |m.entries| + |d.entries|
    ensures metaList in Lists(m', count) && dataList in Lists(d', count)
    ensures m'.capacity == m.capacity && |m'.entries| == |m.entries|
    ensures d'.capacity == d.capacity && |d'.entries| == |d.entries|
    ensures Sorted(m', false) && Sorted(d', true)
  {
    RestampBoth(m, d, metaList, dataList, next, ranks);
    SameKeys(m, ranks);
    SameKeys(d, ranks);
    RestampSorted(m, ranks, false);
    RestampSorted(d, ranks, true);
  }

  lemma RestampSorted(p: Partition, ranks: map<CacheKey, u64>, data: bool)
    requires Sorted(p, data) && forall k | k in p.entries :: k in ranks
    ensures Sorted(Restamped(p, ranks), data)
  {
  }

  lemma RestampBoth(m: Partition, d: Partition, metaList: Recency, dataList: Recency, next: nat,
                    ranks: map<CacheKey, u64>)
    requires metaList in Lists(m, next) && dataList in Lists(d, next) && Sorted(m, false) && Sorted(d, true)
    requires ranks in RankMaps(StampsOf(m) + StampsOf(d))
    ensures (forall k | k in m.entries :: k in ranks) && (forall k | k in d.entries :: k in ranks)
    ensures var count := |m.entries| + |d.entries|;
            metaList in Lists(Restamped(m, ranks), count) && dataList in Lists(Restamped(d, ranks), count)
  {
    StampCount(m, d);
    RestampOne(m, metaList, next, StampsOf(m) + StampsOf(d), ranks);
    RestampOne(d, dataList, next, StampsOf(m) + StampsOf(d), ranks);
  }

  lemma RestampOne(p: Partition, list: Recency, next: nat, stamps: map<CacheKey, u64>, ranks: map<CacheKey, u64>)
    requires list in Lists(p, next) && ranks in RankMaps(stamps)
    requires forall k | k in p.entries :: k in stamps && stamps[k] == p.entries[k].stamp
    ensures forall k | k in p.entries :: k in ranks
    ensures list in Lists(Restamped(p, ranks), |stamps|)
  {
    RestampShown(p, list, next, stamps, ranks, |stamps|);
  }

  lemma SameKeys(p: Partition, ranks: map<CacheKey, u64>)
    requires forall k | k in p.entries :: k in ranks
    ensures Restamped(p, ranks).entries.Keys == p.entries.Keys && |Restamped(p, ranks).entries| == |p.entries|
  {
    assert Restamped(p, ranks).entries.Keys == p.entries.Keys;
    KeyCount(Restamped(p, ranks).entries);
    KeyCount(p.entries);
  }

  lemma KeyCount<V>(m: map<CacheKey, V>)
    ensures |m| == |m.Keys|
  {
  }

  lemma UnionCount(a: set<CacheKey>, b: set<CacheKey>)
    requires a !! b
    ensures |a + b| == |a| + |b|
  {
  }

  lemma StampCount(m: Partition, d: Partition)
    requires Sorted(m, false) && Sorted(d, true)
    ensures |StampsOf(m) + StampsOf(d)| == |m.entries| + |d.entries|
    ensures forall k | k in m.entries ::
              k in StampsOf(m) + StampsOf(d) && (StampsOf(m) + StampsOf(d))[k] == m.entries[k].stamp
    ensures forall k | k in d.entries ::
              k in StampsOf(m) + StampsOf(d) && (StampsOf(m) + StampsOf(d))[k] == d.entries[k].stamp
  {
    var all := StampsOf(m) + StampsOf(d);
    assert all.Keys == m.entries.Keys + d.entries.Keys;
    KeyCount(all);
    KeyCount(m.entries);
    KeyCount(d.entries);
    UnionCount(m.entries.Keys, d.entries.Keys);
  }
}
