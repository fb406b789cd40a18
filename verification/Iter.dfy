/** Merged iteration over sorted runs and the visible-key scan built on it. */
module Iterators {
  import opened Bytes
  import opened InternalKeys
  import opened Mvcc

  // ----- Specification of the merge -----

  type Run = seq<Entry>

  predicate AllEmpty(cs: seq<Run>) {
    forall i | 0 <= i < |cs| :: cs[i] == []
  }

  /** Heads compare by key and then by child position. */
  predicate HeadBefore(cs: seq<Run>, i: nat, j: nat)
    requires i < |cs| && j < |cs| && cs[i] != [] && cs[j] != []
  {
    var a, b := Key(cs[i][0]), Key(cs[j][0]);
    KeyLess(a, b) || (a == b && i < j)
  }

  predicate IsLeastHead(cs: seq<Run>, i: nat) {
    && i < |cs| && cs[i] != []
    && forall j | 0 <= j < |cs| && j != i && cs[j] != [] :: HeadBefore(cs, i, j)
  }

  lemma HeadOrder(cs: seq<Run>, i: nat, j: nat)
    requires i < |cs| && j < |cs| && cs[i] != [] && cs[j] != [] && i != j
    ensures HeadBefore(cs, i, j) <==> !HeadBefore(cs, j, i)
  {
    KeyLessTotal(Key(cs[i][0]), Key(cs[j][0]));
  }

  lemma HeadTransitive(cs: seq<Run>, i: nat, j: nat, k: nat)
    requires i < |cs| && j < |cs| && k < |cs| && cs[i] != [] && cs[j] != [] && cs[k] != []
    requires HeadBefore(cs, i, j) && HeadBefore(cs, j, k)
    ensures HeadBefore(cs, i, k)
  {
    var a, b, c := Key(cs[i][0]), Key(cs[j][0]), Key(cs[k][0]);
    if KeyLess(a, b) && KeyLess(b, c) {
      KeyLessTransitive(a, b, c);
    }
  }

  /** The least head among the first `n` children. */
  function LeastAmong(cs: seq<Run>, n: nat): (c: nat)
    requires n <= |cs|
    requires exists i :: 0 <= i < n && cs[i] != []
    ensures c < n && cs[c] != []
  {
    if cs[n - 1] == [] then LeastAmong(cs, n - 1)
    else if forall i | 0 <= i < n - 1 :: cs[i] == [] then n - 1
    else
      var c := LeastAmong(cs, n - 1);
      if HeadBefore(cs, c, n - 1) then c else n - 1
  }

  lemma {:induction false} LeastAmongIsLeast(cs: seq<Run>, n: nat)
    requires n <= |cs|
    requires exists i :: 0 <= i < n && cs[i] != []
    ensures forall j | 0 <= j < n && j != LeastAmong(cs, n) && cs[j] != [] :: HeadBefore(cs, LeastAmong(cs, n), j)
  {
    if cs[n - 1] == [] {
      LeastAmongIsLeast(cs, n - 1);
    } else if exists i :: 0 <= i < n - 1 && cs[i] != [] {
      LeastAmongIsLeast(cs, n - 1);
      var c := LeastAmong(cs, n - 1);
      HeadOrder(cs, c, n - 1);
      if !HeadBefore(cs, c, n - 1) {
        forall j | 0 <= j < n - 1 && cs[j] != [] && j != c ensures HeadBefore(cs, n - 1, j) {
          HeadTransitive(cs, n - 1, c, j);
        }
      }
    }
  }

  lemma LeastHeadUnique(cs: seq<Run>, i: nat, j: nat)
    requires IsLeastHead(cs, i) && IsLeastHead(cs, j)
    ensures i == j
  {
    if i != j {
      HeadOrder(cs, i, j);
    }
  }

  function Total(cs: seq<Run>): nat {
    if cs == [] then 0 else |cs[0]| + Total(cs[1..])
  }

  lemma {:induction false} TotalPop(cs: seq<Run>, c: nat)
    requires c < |cs| && cs[c] != []
    ensures Total(cs[c := cs[c][1..]]) == Total(cs) - 1
  {
    var ds := cs[c := cs[c][1..]];
    if c == 0 {
      assert ds[1..] == cs[1..];
    } else {
      TotalPop(cs[1..], c - 1);
      assert ds[1..] == cs[1..][c - 1 := cs[1..][c - 1][1..]];
    }
  }

  /** Repeatedly takes the least head of all children. */
  function Merge(cs: seq<Run>): (r: seq<Entry>)
    decreases Total(cs)
  {
    if AllEmpty(cs) then [] else
      var c := LeastAmong(cs, |cs|);
      TotalPop(cs, c);
      [cs[c][0]] + Merge(cs[c := cs[c][1..]])
  }

  lemma {:induction false} MergeMembers(cs: seq<Run>, e: Entry)
    ensures e in Merge(cs) <==> exists i :: 0 <= i < |cs| && e in cs[i]
    decreases Total(cs)
  {
    if !AllEmpty(cs) {
      var c := LeastAmong(cs, |cs|);
      var ds := cs[c := cs[c][1..]];
      TotalPop(cs, c);
      MergeMembers(ds, e);
      assert cs[c] == [cs[c][0]] + ds[c];
      if i :| 0 <= i < |cs| && e in cs[i] {
        assert e == cs[c][0] || e in ds[i];
      }
      if i :| 0 <= i < |ds| && e in ds[i] {
        assert e in cs[i];
      }
    }
  }

  /** No two children hold a version of one key at one sequence. */
  ghost predicate Disjoint(cs: seq<Run>) {
    forall i, j, e, f | 0 <= i < j < |cs| && e in cs[i] && f in cs[j] ::
      !(e.user == f.user && e.seqno == f.seqno)
  }

  /** Merging sorted disjoint runs gives one sorted run. */
  lemma {:induction false} MergeSorted(cs: seq<Run>)
    requires forall i | 0 <= i < |cs| :: Sorted(cs[i])
    requires Disjoint(cs)
    ensures Sorted(Merge(cs))
    decreases Total(cs)
  {
    if !AllEmpty(cs) {
      var c := LeastAmong(cs, |cs|);
      var ds := cs[c := cs[c][1..]];
      var head := cs[c][0];
      TotalPop(cs, c);
      LeastAmongIsLeast(cs, |cs|);
      PopDisjoint(cs, c);
      MergeSorted(ds);
      forall e | e in Merge(ds) ensures Before(head, e) {
        MergeMembers(ds, e);
        var i :| 0 <= i < |ds| && e in ds[i];
        HeadBeforeMember(cs, c, i, e);
      }
      SortedCons(head, Merge(ds));
    }
  }

  lemma PopDisjoint(cs: seq<Run>, c: nat)
    requires c < |cs| && cs[c] != [] && Disjoint(cs)
    requires forall i | 0 <= i < |cs| :: Sorted(cs[i])
    ensures Disjoint(cs[c := cs[c][1..]])
    ensures var ds := cs[c := cs[c][1..]]; forall i | 0 <= i < |ds| :: Sorted(ds[i])
  {
    assert forall e | e in cs[c][1..] :: e in cs[c];
  }

  lemma HeadBeforeMember(cs: seq<Run>, c: nat, i: nat, e: Entry)
    requires forall i | 0 <= i < |cs| :: Sorted(cs[i])
    requires Disjoint(cs)
    requires IsLeastHead(cs, c)
    requires i < |cs| && e in (if i == c then cs[c][1..] else cs[i])
    ensures Before(cs[c][0], e)
  {
    var head := cs[c][0];
    if i == c {
      var k :| 0 <= k < |cs[c]| - 1 && cs[c][1..][k] == e;
      assert cs[c][k + 1] == e;
    } else {
      var k :| 0 <= k < |cs[i]| && cs[i][k] == e;
      var f := cs[i][0];
      assert HeadBefore(cs, c, i);
      assert head in cs[c] && f in cs[i];
      assert Before(head, f);
      if k > 0 {
        assert Before(f, e);
        BeforeTransitive(head, f, e);
      }
    }
  }

  // ----- The heap-based iterator -----

  /** A child stream: its remaining entries, and whether it ends in a read error. */
  datatype Child = Child(rest: Run, broken: bool)

  datatype Item = Yield(entry: Entry) | Failure

  ghost function UnreadOf(children: seq<Child>, heap: map<nat, Entry>): (cs: seq<Run>)
    ensures |cs| == |children|
  {
    seq(|children|, i requires 0 <= i < |children| =>
      if i in heap then [heap[i]] + children[i].rest else children[i].rest)
  }

  predicate HeapInRange(children: seq<Child>, heap: map<nat, Entry>) {
    forall i | i in heap :: i < |children|
  }

  /** No child fails, and each unfinished one has its head in the heap. */
  predicate Primed(children: seq<Child>, heap: map<nat, Entry>) {
    forall i | 0 <= i < |children| :: !children[i].broken && (children[i].rest != [] ==> i in heap)
  }

  /** What the iterator's ghost fields say about its children and heap. */
  ghost predicate Tracks(children: seq<Child>, heap: map<nat, Entry>, healthy: bool, left: nat, stream: seq<Entry>) {
    && HeapInRange(children, heap)
    && (healthy ==> Primed(children, heap))
    && forall cs {:trigger Merge(cs)} | cs == UnreadOf(children, heap) ::
         left == Total(cs) && (healthy ==> stream == Merge(cs))
  }

  /** Popping the least heap entry takes the first element off the merged stream. */
  lemma TracksPop(children: seq<Child>, heap: map<nat, Entry>, healthy: bool, left: nat, stream: seq<Entry>, c: nat)
    requires Tracks(children, heap, healthy, left, stream) && LeastInHeap(heap, c)
    ensures left > 0 && (healthy ==> stream != [] && stream[0] == heap[c])
    ensures Tracks(AdvancedChildren(children, c), AdvancedHeap(children, heap - {c}, c), healthy,
                   left - 1, if stream == [] then [] else stream[1..])
  {
    var whole := Merge(UnreadOf(children, heap));
    PopUnread(children, heap, c);
    if healthy {
      PopStream(children, heap, c);
    }
  }

  lemma TracksEmpty(children: seq<Child>, heap: map<nat, Entry>, left: nat, stream: seq<Entry>)
    requires Tracks(children, heap, true, left, stream) && heap.Keys == {}
    ensures stream == []
  {
    assert AllEmpty(UnreadOf(children, heap));
    assert stream == Merge(UnreadOf(children, heap));
  }

  /** Child `i` has been read once: its first entry, if any, is in the heap. */
  predicate Started(c: Child, heap: map<nat, Entry>, i: nat, original: Child) {
    && c.broken == original.broken
    && (c.rest != [] ==> i in heap)
    && original.rest == if i in heap then [heap[i]] + c.rest else c.rest
  }

  lemma UnreadIs(children: seq<Child>, heap: map<nat, Entry>, streams: seq<Child>)
    requires |children| == |streams|
    requires forall i | 0 <= i < |streams| :: Started(children[i], heap, i, streams[i])
    ensures UnreadOf(children, heap) == seq(|streams|, i requires 0 <= i < |streams| => streams[i].rest)
  {
  }

  function AdvancedChildren(children: seq<Child>, i: nat): seq<Child>
    requires i < |children|
  {
    var c := children[i];
    if c.rest == [] then children else children[i := c.(rest := c.rest[1..])]
  }

  function AdvancedHeap(children: seq<Child>, heap: map<nat, Entry>, i: nat): map<nat, Entry>
    requires i < |children|
  {
    var c := children[i];
    if c.rest == [] then heap else heap[i := c.rest[0]]
  }

  /** Popping a heap entry and refilling from its child drops that child's head. */
  lemma PopUnread(children: seq<Child>, heap: map<nat, Entry>, c: nat)
    requires c in heap && HeapInRange(children, heap)
    ensures HeapInRange(AdvancedChildren(children, c), AdvancedHeap(children, heap - {c}, c))
    ensures var cs := UnreadOf(children, heap);
            UnreadOf(AdvancedChildren(children, c), AdvancedHeap(children, heap - {c}, c)) == cs[c := cs[c][1..]]
    ensures Total(UnreadOf(AdvancedChildren(children, c), AdvancedHeap(children, heap - {c}, c)))
            == Total(UnreadOf(children, heap)) - 1
  {
    var cs := UnreadOf(children, heap);
    var ds := UnreadOf(AdvancedChildren(children, c), AdvancedHeap(children, heap - {c}, c));
    assert cs[c][1..] == children[c].rest;
    TotalPop(cs, c);
    var es := cs[c := cs[c][1..]];
    forall i | 0 <= i < |cs| ensures ds[i] == es[i] {
    }
    assert ds == es;
  }

  predicate LeastInHeap(heap: map<nat, Entry>, c: nat) {
    && c in heap
    && forall j | j in heap && j != c ::
         KeyLess(Key(heap[c]), Key(heap[j])) || (Key(heap[c]) == Key(heap[j]) && c < j)
  }

  lemma LeastInHeapIsLeastHead(children: seq<Child>, heap: map<nat, Entry>, c: nat)
    requires HeapInRange(children, heap) && Primed(children, heap)
    requires LeastInHeap(heap, c)
    ensures IsLeastHead(UnreadOf(children, heap), c)
  {
    var cs := UnreadOf(children, heap);
    forall j | 0 <= j < |cs| && j != c && cs[j] != [] ensures HeadBefore(cs, c, j) {
      assert j in heap;
    }
  }

  /** The heap holds at most one entry per child, so it is a map from child to entry. */
  class MergingIterator {
    var children: seq<Child>
    var heap: map<nat, Entry>
    var failed: bool
    var pendingError: bool
    ghost const healthy: bool      // every child can be read to its end
    ghost var left: nat            // entries not yet taken
    ghost var stream: seq<Entry>   // what a healthy iterator still yields

    ghost predicate Valid()
      reads this
    {
      && (healthy ==> !failed && !pendingError)
      && Tracks(children, heap, healthy, left, stream)
    }

    constructor (streams: seq<Child>)
      ensures Valid()
      ensures healthy == forall i | 0 <= i < |streams| :: !streams[i].broken
      ensures healthy ==> stream == Merge(seq(|streams|, i requires 0 <= i < |streams| => streams[i].rest))
    {
      children, heap, failed, pendingError := streams, map[], false, false;
      healthy := forall i | 0 <= i < |streams| :: !streams[i].broken;
      new;
      var child := 0;
      while child < |streams|
        invariant child <= |streams| == |children| && !failed
        invariant pendingError ==> !healthy
        invariant forall i | i in heap :: i < child
        invariant forall i | child <= i < |streams| :: children[i] == streams[i]
        invariant forall i | 0 <= i < child :: Started(children[i], heap, i, streams[i])
      {
        var more := AdvanceChild(child);
        if !more {
          break;
        }
        child := child + 1;
      }
      left := Total(UnreadOf(children, heap));
      stream := Merge(UnreadOf(children, heap));
      if healthy {
        UnreadIs(children, heap, streams);
      }
    }

    /** Moves the next entry of one child into the heap; an error is kept for the next call. */
    method AdvanceChild(child: nat) returns (ok: bool)
      requires child < |children| && child !in heap
      modifies this`children, this`heap, this`pendingError
      ensures ok == (old(children)[child].rest != [] || !old(children)[child].broken)
      ensures children == AdvancedChildren(old(children), child)
      ensures heap == AdvancedHeap(old(children), old(heap), child)
      ensures pendingError == (old(pendingError) || !ok)
    {
      var c := children[child];
      if c.rest != [] {
        heap := heap[child := c.rest[0]];
        children := children[child := c.(rest := c.rest[1..])];
        return true;
      } else if c.broken {
        pendingError := true;
        return false;
      }
      return true;
    }

    /** The child whose heap entry is least by key and then by child position. */
    method LeastChild() returns (c: nat)
      requires heap.Keys != {} && forall i | i in heap :: i < |children|
      ensures LeastInHeap(heap, c)
    {
      var found := false;
      c := 0;
      for i := 0 to |children|
        invariant found <==> exists j :: j in heap && j < i
        invariant found ==> c in heap && c < i
        invariant found ==> forall j | j in heap && j < i && j != c ::
              KeyLess(Key(heap[c]), Key(heap[j])) || (Key(heap[c]) == Key(heap[j]) && c < j)
      {
        if i in heap {
          if !found {
            found, c := true, i;
          } else {
            KeyLessTotal(Key(heap[c]), Key(heap[i]));
            if KeyLess(Key(heap[i]), Key(heap[c])) {
              forall j | j in heap && j < i && j != c && KeyLess(Key(heap[c]), Key(heap[j])) {
                KeyLessTransitive(Key(heap[i]), Key(heap[c]), Key(heap[j]));
              }
              c := i;
            }
          }
        }
      }
      assert found by {
        var j :| j in heap;
      }
    }

    /** One step of the merge; a stored error is reported once and ends the iteration. */
    method Next() returns (item: Option<Item>)
      requires Valid()
      modifies this
      ensures Valid()
      ensures old(failed) ==> item == None
      ensures !old(failed) && old(pendingError) ==> item == Some(Failure) && failed
      ensures item == None ==> left == old(left)
      ensures item.Some? && item.value.Yield? ==> left < old(left)
      ensures healthy ==> item != Some(Failure)
      ensures healthy && item == None ==> old(stream) == stream == []
      ensures healthy && item.Some? ==> old(stream) == [item.value.entry] + stream
    {
      if failed {
        return None;
      }
      if pendingError {
        pendingError, failed, heap := false, true, map[];
        left := Total(UnreadOf(children, map[]));
        return Some(Failure);
      }
      if heap.Keys == {} {
        if healthy {
          TracksEmpty(children, heap, left, stream);
        }
        return None;
      }
      var c := LeastChild();
      var entry := Take(c);
      return Some(Yield(entry));
    }

    /** Removes one least heap entry and refills the heap from its child. */
    method Take(c: nat) returns (entry: Entry)
      requires Valid() && LeastInHeap(heap, c) && !failed && !pendingError
      modifies this`children, this`heap, this`pendingError, this`left, this`stream
      ensures Valid() && left < old(left)
      ensures healthy ==> old(stream) == [entry] + stream
    {
      TracksPop(children, heap, healthy, left, stream, c);
      entry := heap[c];
      left, stream := left - 1, if stream == [] then [] else stream[1..];
      heap := heap - {c};
      var _ := AdvanceChild(c);
    }
  }

  /** Reads a healthy iterator to its end. */
  method Drain(it: MergingIterator) returns (merged: seq<Entry>)
    requires it.Valid() && it.healthy
    modifies it
    ensures merged == old(it.stream)
  {
    merged := [];
    while true
      invariant it.Valid() && merged + it.stream == old(it.stream)
      decreases it.left
    {
      var item := it.Next();
      if item == None {
        return;
      }
      ConcatAssociative(merged, [item.value.entry], it.stream);
      merged := merged + [item.value.entry];
    }
  }

  lemma PopStream(children: seq<Child>, heap: map<nat, Entry>, c: nat)
    requires HeapInRange(children, heap) && Primed(children, heap)
    requires LeastInHeap(heap, c)
    ensures Primed(AdvancedChildren(children, c), AdvancedHeap(children, heap - {c}, c))
    ensures Merge(UnreadOf(children, heap)) ==
            [heap[c]] + Merge(UnreadOf(AdvancedChildren(children, c), AdvancedHeap(children, heap - {c}, c)))
  {
    LeastInHeapIsLeastHead(children, heap, c);
    StreamStep(UnreadOf(children, heap), c);
    PopUnread(children, heap, c);
  }

  lemma StreamStep(cs: seq<Run>, c: nat)
    requires IsLeastHead(cs, c)
    ensures Merge(cs) == [cs[c][0]] + Merge(cs[c := cs[c][1..]])
  {
    LeastAmongIsLeast(cs, |cs|);
    LeastHeadUnique(cs, c, LeastAmong(cs, |cs|));
  }

  // ----- Bounds -----

  datatype Bound = Included(key: bytes) | Excluded(key: bytes) | Unbounded

  datatype ScanBounds = ScanBounds(start: Bound, end: Bound)

  predicate LowerAllows(b: ScanBounds, key: bytes) {
    match b.start
    case Included(start) => LessEq(start, key)
    case Excluded(start) => Less(start, key)
    case Unbounded => true
  }

  predicate UpperAllows(b: ScanBounds, key: bytes) {
    match b.end
    case Included(end) => LessEq(key, end)
    case Excluded(end) => Less(key, end)
    case Unbounded => true
  }

  predicate InBounds(b: ScanBounds, key: bytes) {
    LowerAllows(b, key) && UpperAllows(b, key)
  }

  lemma UpperMonotone(b: ScanBounds, key: bytes, later: bytes)
    requires Less(key, later) && !UpperAllows(b, key)
    ensures !UpperAllows(b, later)
  {
    if b.end.Included? || b.end.Excluded? {
      var end := b.end.key;
      LessTotal(key, end);
      LessTotal(later, end);
      if Less(later, end) {
        LessTransitive(key, later, end);
      }
    }
  }

  // ----- Specification of the scan -----

  /** Number of leading entries with the first entry's user key. */
  function GroupEnd(t: seq<Entry>): (n: nat)
    requires t != []
    ensures 1 <= n <= |t|
    ensures forall i | 0 <= i < n :: t[i].user == t[0].user
    ensures n < |t| ==> t[n].user != t[0].user
  {
    if |t| == 1 || t[1].user != t[0].user then 1 else
      var n := 1 + GroupEnd(t[1..]);
      assert forall i | 0 < i < n :: t[i] == t[1..][i - 1];
      assert n < |t| ==> t[n] == t[1..][n - 1];
      n
  }

  function Consider(newest: Option<Entry>, e: Entry, at: u64): Option<Entry> {
    if e.seqno <= at && (newest.None? || e.seqno > newest.value.seqno) then Some(e) else newest
  }

  function Considered(newest: Option<Entry>, t: seq<Entry>, at: u64): Option<Entry>
    decreases |t|
  {
    if t == [] then newest else
      Considered(Consider(newest, t[0], at), t[1..], at)
  }

  /** The rows a scan of a sorted stream yields. */
  function Scan(t: seq<Entry>, b: ScanBounds, at: u64, now: u64, limit: nat): seq<(bytes, bytes)>
    decreases |t|
  {
    if limit == 0 || t == [] then [] else
      var n := GroupEnd(t);
      var user := t[0].user;
      if !LowerAllows(b, user) then Scan(t[n..], b, at, now, limit)
      else if !UpperAllows(b, user) then []
      else
        match LiveIn(t[..n], at, now)
        case None => Scan(t[n..], b, at, now, limit)
        case Some(value) => [(user, value)] + Scan(t[n..], b, at, now, limit - 1)
  }

  function LiveIn(group: seq<Entry>, at: u64, now: u64): Option<bytes> {
    match Considered(None, group, at)
    case None => None
    case Some(e) => Live(e.record, now)
  }

  lemma {:induction false} ConsideredSnoc(newest: Option<Entry>, t: seq<Entry>, e: Entry, at: u64)
    ensures Considered(newest, t + [e], at) == Consider(Considered(newest, t, at), e, at)
    decreases |t|
  {
    if t == [] {
      assert [] + [e] == [e];
      assert [e][1..] == [];
    } else {
      ConsideredSnoc(Consider(newest, t[0], at), t[1..], e, at);
      assert (t + [e])[1..] == t[1..] + [e];
    }
  }

  // ----- The scanning iterator -----

  class KvIterator {
    const merged: MergingIterator
    const bounds: ScanBounds
    const sequence: u64
    const readTime: u64
    var remaining: nat
    var failed: bool
    var pending: Option<Entry>

    constructor (merged: MergingIterator, bounds: ScanBounds, sequence: u64, readTime: u64, limit: nat)
      ensures this.merged == merged && this.bounds == bounds
      ensures this.sequence == sequence && this.readTime == readTime
      ensures remaining == limit && !failed && pending == None
    {
      this.merged, this.bounds, this.sequence, this.readTime := merged, bounds, sequence, readTime;
      remaining, failed, pending := limit, false, None;
    }

    ghost predicate Valid()
      reads this, merged
    {
      merged.Valid()
    }

    /** Entries not yet consumed, the one held back included. */
    ghost function Stream(): seq<Entry>
      reads this, merged
    {
      (if pending.Some? then [pending.value] else []) + merged.stream
    }

    /** The rows still to be yielded. */
    ghost function Output(): seq<(bytes, bytes)>
      reads this, merged
    {
      Scan(Stream(), bounds, sequence, readTime, remaining)
    }

    ghost function Left(): nat
      reads this, merged
    {
      merged.left + if pending.Some? then 1 else 0
    }

    /** Consumes the rest of one key's versions, keeping the first entry of the next key. */
    method ReadGroup(first: Entry) returns (newest: Option<Entry>, ok: bool)
      requires Valid() && pending == None
      modifies this`pending, merged
      ensures Valid()
      ensures ok ==> Left() <= old(Left())
      ensures merged.healthy ==> ok
      ensures merged.healthy ==>
                var t := [first] + old(merged.stream);
                Stream() == t[GroupEnd(t)..] && newest == Considered(None, t[..GroupEnd(t)], sequence)
    {
      newest := Consider(None, first, sequence);
      ghost var t := [first] + merged.stream;
      ghost var n := 1;
      assert t[..1] == [first] && [first][1..] == [];
      ok := true;
      while true
        invariant Valid() && pending == None
        invariant Left() <= old(Left())
        invariant merged.healthy ==> 1 <= n <= |t| && t[n..] == merged.stream
        invariant merged.healthy ==> forall i | 0 <= i < n :: t[i].user == first.user
        invariant merged.healthy ==> newest == Considered(None, t[..n], sequence)
        decreases Left()
      {
        var item := merged.Next();
        match item {
          case Some(Yield(entry)) =>
            if merged.healthy {
              assert t[n] == entry && t[n + 1..] == merged.stream;
            }
            if entry.user == first.user {
              if merged.healthy {
                assert t[..n + 1] == t[..n] + [entry];
                ConsideredSnoc(None, t[..n], entry, sequence);
                n := n + 1;
              }
              newest := Consider(newest, entry, sequence);
            } else {
              pending := Some(entry);
              if merged.healthy {
                GroupEndIs(t, n);
                assert t[n..] == [entry] + merged.stream;
              }
              return;
            }
          case Some(Failure) =>
            ok := false;
            return;
          case None =>
            if merged.healthy {
              GroupEndIs(t, n);
            }
            return;
        }
      }
    }

    /** Takes the next entry: the one held back, or the next of the merge. */
    method TakeFirst() returns (item: Option<Item>)
      requires Valid()
      modifies this`pending, merged
      ensures Valid() && pending == None
      ensures item.Some? && item.value.Yield? ==> Left() < old(Left())
      ensures merged.healthy ==> item != Some(Failure)
      ensures merged.healthy && item == None ==> old(Stream()) == []
      ensures merged.healthy && item.Some? ==> old(Stream()) == [item.value.entry] + merged.stream
    {
      if pending.Some? {
        item := Some(Yield(pending.value));
        pending := None;
      } else {
        item := merged.Next();
      }
    }

    /** Reads one key: a row to yield, a hidden or low key, the end, or an error. */
    method ReadKey() returns (outcome: Outcome)
      requires Valid() && !failed && remaining > 0
      modifies this`pending, merged
      ensures Valid()
      ensures outcome == Skip ==> Left() < old(Left())
      ensures merged.healthy ==> outcome == OutcomeOf(old(Stream()), bounds, sequence, readTime)
      ensures merged.healthy && old(Stream()) != [] ==> Stream() == old(Stream())[GroupEnd(old(Stream()))..]
    {
      ghost var t := Stream();
      var item := TakeFirst();
      match item {
        case None => return End;
        case Some(Failure) => return Broken;
        case Some(Yield(first)) =>
          assert merged.healthy ==> t == [first] + merged.stream;
          var newest, ok := ReadGroup(first);
          if !ok {
            return Broken;
          }
          if !LowerAllows(bounds, first.user) {
            return Skip;
          }
          if !UpperAllows(bounds, first.user) {
            return End;
          }
          if newest.Some? && Live(newest.value.record, readTime).Some? {
            return Row((first.user, Live(newest.value.record, readTime).value));
          }
          return Skip;
      }
    }

    /** Yields the next live in-bounds key, skipping hidden ones. */
    method Next() returns (row: Option<Result<(bytes, bytes)>>)
      requires Valid()
      modifies this, merged
      ensures Valid()
      ensures old(failed) ==> row == None
      ensures merged.healthy ==> failed == old(failed)
      ensures merged.healthy && !old(failed) && old(Output()) == [] ==> row == None
      ensures merged.healthy && !old(failed) && old(Output()) != [] ==>
                row == Some(Ok(old(Output())[0])) && Output() == old(Output())[1..]
    {
      if failed || remaining == 0 {
        return None;
      }
      var outcome := ReadOn();
      match outcome {
        case End => return None;
        case Broken => failed := true; return Some(Err);
        case Row(r) => remaining := remaining - 1; return Some(Ok(r));
      }
    }

    /** Reads keys until one is not skipped. */
    method ReadOn() returns (outcome: Outcome)
      requires Valid() && !failed && remaining > 0
      modifies this`pending, merged
      ensures Valid() && outcome != Skip
      ensures merged.healthy ==> outcome != Broken
      ensures merged.healthy && outcome == End ==> old(Output()) == []
      ensures merged.healthy && outcome.Row? ==>
                old(Output()) == [outcome.row] + Scan(Stream(), bounds, sequence, readTime, remaining - 1)
    {
      while true
        invariant Valid() && !failed
        invariant merged.healthy ==> Output() == old(Output())
        decreases Left()
      {
        ScanByOutcome(Stream(), bounds, sequence, readTime, remaining);
        outcome := ReadKey();
        if outcome != Skip {
          return;
        }
      }
    }
  }

  datatype Outcome = Row(row: (bytes, bytes)) | Skip | End | Broken

  /** What the first key of a stream contributes to a scan. */
  function OutcomeOf(t: seq<Entry>, b: ScanBounds, at: u64, now: u64): Outcome {
    if t == [] then End
    else if !LowerAllows(b, t[0].user) then Skip
    else if !UpperAllows(b, t[0].user) then End
    else
      match LiveIn(t[..GroupEnd(t)], at, now)
      case None => Skip
      case Some(value) => Row((t[0].user, value))
  }

  lemma ScanByOutcome(t: seq<Entry>, b: ScanBounds, at: u64, now: u64, limit: nat)
    requires limit > 0
    ensures Scan(t, b, at, now, limit) ==
            match OutcomeOf(t, b, at, now)
            case Row(r) => [r] + Scan(t[GroupEnd(t)..], b, at, now, limit - 1)
            case Skip => Scan(t[GroupEnd(t)..], b, at, now, limit)
            case _ => []
  {
  }

  lemma GroupEndIs(t: seq<Entry>, n: nat)
    requires 1 <= n <= |t| && forall i | 0 <= i < n :: t[i].user == t[0].user
    requires n < |t| ==> t[n].user != t[0].user
    ensures GroupEnd(t) == n
  {
  }
}
