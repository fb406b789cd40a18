/** Checking an encoded block: it is accepted exactly when its footer, its entries and
    its restart offsets fit together. */
module BlockChecks {
  import opened Bytes
  import opened Blocks

  predicate OffsetsFit(restarts: seq<nat>, end: nat) {
    && |restarts| > 0 && restarts[0] == 0 && Ascending(restarts)
    && (end == 0 ==> |restarts| == 1)
    && (end > 0 ==> forall k | 0 <= k < |restarts| :: restarts[k] < end)
  }

  method ReadOffsets(s: bytes) returns (r: Result<seq<nat>>)
    requires HasFooter(s)
    ensures r.Ok? <==> OffsetsFit(FooterOffsets(s), EntriesEnd(s))
    ensures r.Ok? ==> r.value == FooterOffsets(s)
  {
    var end := EntriesEnd(s);
    var restarts: seq<nat> := [];
    ghost var all := FooterOffsets(s);
    for i := 0 to RestartCount(s)
      invariant restarts == all[..i]
      invariant Ascending(restarts) && (i > 0 ==> restarts[0] == 0)
      invariant end == 0 && i > 0 ==> |all| == 1
      invariant end > 0 ==> forall k | 0 <= k < i :: all[k] < end
    {
      var offset := WordAt(s, end + WORD * i);
      assert all[i] == offset;
      if i == 0 && offset != 0 {
        return Err;
      }
      if i > 0 && offset <= restarts[i - 1] {
        return Err;
      }
      if end == 0 {
        if RestartCount(s) != 1 || offset != 0 {
          return Err;
        }
      } else if offset >= end {
        return Err;
      }
      restarts := restarts + [offset];
      assert all[..i + 1] == all[..i] + [offset];
    }
    assert all[..|all|] == all;
    return Ok(restarts);
  }

  // ----- The pass over the entries -----

  predicate Passes(read: Decoder, n: nat, restarts: seq<nat>) {
    var r := Items(read, n, 0, []);
    && r.Ok?
    && KeysIncrease(r.value)
    && (n > 0 ==> forall k | 0 <= k < |restarts| :: RestartsAt(r.value, restarts[k]))
  }

  function After(done: seq<Item>, rest: Result<seq<Item>>): Result<seq<Item>> {
    if rest.Err? then Err else Ok(done + rest.value)
  }

  lemma AfterNothing(rest: Result<seq<Item>>)
    ensures After([], rest) == rest
  {
    if rest.Ok? {
      ConcatAssociative(rest.value, [], []);
    }
  }

  predicate Begins(items: seq<Item>, r: nat) {
    exists i | 0 <= i < |items| :: Start(items, i) == r
  }

  /** The members of an ascending offset list at which one of the entries begins. */
  function Hits(restarts: seq<nat>, items: seq<Item>): set<nat> {
    set r | r in restarts && Begins(items, r)
  }

  lemma HitsStep(restarts: seq<nat>, items: seq<Item>, e: Item)
    requires StartsAscend(items)
    ensures |Hits(restarts, items + [e])| ==
            |Hits(restarts, items)| + (if Start(items, |items|) in restarts then 1 else 0)
  {
    var cursor := Start(items, |items|);
    var all := items + [e];
    forall r ensures Begins(all, r) <==> Begins(items, r) || r == cursor {
      if i :| 0 <= i < |items| && Start(items, i) == r {
        assert Start(all, i) == r;
      }
      if i :| 0 <= i < |all| && Start(all, i) == r {
        assert i < |items| ==> Start(items, i) == r;
      }
      assert Start(all, |items|) == cursor;
    }
    var hits := Hits(restarts, items);
    assert cursor !in hits;
    assert Hits(restarts, all) == if cursor in restarts then hits + {cursor} else hits;
  }

  function Members(restarts: seq<nat>): set<nat> {
    set r | r in restarts
  }

  lemma {:induction false} MemberCount(restarts: seq<nat>)
    requires Ascending(restarts)
    ensures |Members(restarts)| == |restarts|
  {
    if restarts != [] {
      var n := |restarts| - 1;
      var front := restarts[..n];
      MemberCount(front);
      assert restarts[n] !in front;
      MembersSnoc(front, restarts[n]);
      assert restarts == front + [restarts[n]];
    }
  }

  lemma MembersSnoc(front: seq<nat>, r: nat)
    requires r !in front
    ensures |Members(front + [r])| == |Members(front)| + 1
  {
    assert Members(front + [r]) == Members(front) + {r};
  }

  lemma {:induction false} SubsetSize(a: set<nat>, b: set<nat>)
    requires a <= b
    ensures |a| <= |b| && (|a| == |b| ==> a == b)
    decreases a
  {
    if a != {} {
      var x :| x in a;
      SubsetSize(a - {x}, b - {x});
      assert a == (a - {x}) + {x} && b == (b - {x}) + {x};
    }
  }

  /** Counting the offsets that were hit decides whether all of them were. */
  lemma CountDecides(restarts: seq<nat>, items: seq<Item>)
    requires Ascending(restarts)
    requires forall i | 0 <= i < |items| && Start(items, i) in restarts :: items[i].shared == 0
    ensures |Hits(restarts, items)| == |restarts|
       <==> forall k | 0 <= k < |restarts| :: RestartsAt(items, restarts[k])
  {
    var hits, all := Hits(restarts, items), Members(restarts);
    MemberCount(restarts);
    SubsetSize(hits, all);
    forall r | r in restarts ensures Begins(items, r) <==> RestartsAt(items, r) {
      if i :| 0 <= i < |items| && Start(items, i) == r {
        assert items[i].shared == 0;
      }
    }
    if |hits| == |restarts| {
      forall k | 0 <= k < |restarts| ensures RestartsAt(items, restarts[k]) {
        assert restarts[k] in all;
      }
    }
    if forall k | 0 <= k < |restarts| :: RestartsAt(items, restarts[k]) {
      assert hits == all;
    }
  }

  /** What has been read so far, and what is left to read. */
  ghost predicate Reached(read: Decoder, n: nat, done: seq<Item>, cursor: nat, previous: bytes) {
    && cursor <= n && cursor == Start(done, |done|) && previous == BeforeFrom([], done, |done|)
    && StartsAscend(done)
    && Items(read, n, 0, []) == After(done, Items(read, n, cursor, previous))
  }

  lemma ReachedStep(read: Decoder, n: nat, done: seq<Item>, cursor: nat, previous: bytes)
    requires Reached(read, n, done, cursor, previous) && cursor < n
    ensures read(cursor, previous).Err? || !(cursor < read(cursor, previous).value.next <= n)
            ==> Items(read, n, 0, []).Err?
    ensures read(cursor, previous).Ok? && cursor < read(cursor, previous).value.next <= n ==>
              var e := read(cursor, previous).value; Reached(read, n, done + [e], e.next, e.key)
  {
    if read(cursor, previous).Ok? && cursor < read(cursor, previous).value.next <= n {
      var e := read(cursor, previous).value;
      var all := done + [e];
      var rest := Items(read, n, e.next, e.key);
      if rest.Ok? {
        ConcatAssociative(done, [e], rest.value);
      }
      forall i, j | 0 <= i < j <= |all| ensures Start(all, i) < Start(all, j) {
        assert i <= |done| ==> Start(all, i) == Start(done, i);
        assert j <= |done| ==> Start(all, j) == Start(done, j);
        assert j == |all| && i < |done| ==> Start(done, i) < Start(done, |done|);
      }
    }
  }

  /** A restart inside a shared prefix can never be repaired by later entries. */
  lemma SharedRestartFails(read: Decoder, n: nat, restarts: seq<nat>, done: seq<Item>, e: Item)
    requires Reached(read, n, done + [e], e.next, e.key) && n > 0
    requires Start(done, |done|) in restarts && e.shared != 0
    ensures !Passes(read, n, restarts)
  {
    var r := Items(read, n, 0, []);
    if r.Ok? {
      var items := r.value;
      ItemsAscend(read, n);
      var d := |done|;
      assert items[d] == e && Start(items, d) == Start(done, d);
      var k :| 0 <= k < |restarts| && restarts[k] == Start(done, d);
      forall i | 0 <= i < |items| ensures !(Start(items, i) == restarts[k] && items[i].shared == 0) {
        assert i < d ==> Start(items, i) < Start(items, d);
        assert d < i ==> Start(items, d) < Start(items, i);
      }
      assert !RestartsAt(items, restarts[k]);
    }
  }

  lemma DisorderFails(read: Decoder, n: nat, restarts: seq<nat>, done: seq<Item>, cursor: nat, previous: bytes)
    requires Reached(read, n, done, cursor, previous) && !KeysIncrease(done)
    ensures !Passes(read, n, restarts)
  {
    var r := Items(read, n, 0, []);
    if r.Ok? {
      var i, j :| 0 <= i < j < |done| && !Less(done[i].key, done[j].key);
      assert r.value[i] == done[i] && r.value[j] == done[j];
    }
  }

  lemma KeysIncreaseStep(items: seq<Item>, e: Item)
    requires KeysIncrease(items)
    ensures KeysIncrease(items + [e]) <==> items == [] || Less(items[|items| - 1].key, e.key)
  {
    var all := items + [e];
    if items != [] && Less(items[|items| - 1].key, e.key) {
      forall i, j | 0 <= i < j < |all| ensures Less(all[i].key, all[j].key) {
        if j == |items| && i < |items| - 1 {
          LessTransitive(items[i].key, items[|items| - 1].key, e.key);
        }
      }
    } else if items != [] {
      assert all[|items| - 1] == items[|items| - 1] && all[|items|] == e;
    }
  }

  predicate RestartsWhole(restarts: seq<nat>, items: seq<Item>) {
    forall i | 0 <= i < |items| && Start(items, i) in restarts :: items[i].shared == 0
  }

  lemma RestartsWholeStep(restarts: seq<nat>, items: seq<Item>, e: Item)
    requires RestartsWhole(restarts, items) && (Start(items, |items|) in restarts ==> e.shared == 0)
    ensures RestartsWhole(restarts, items + [e])
  {
    assert forall i | 0 <= i <= |items| :: Start(items + [e], i) == Start(items, i);
  }

  /** The pass over the entries `done` has met no violation. */
  ghost predicate Passing(read: Decoder, n: nat, restarts: seq<nat>, done: seq<Item>, cursor: nat, previous: bytes) {
    Reached(read, n, done, cursor, previous) && KeysIncrease(done) && RestartsWhole(restarts, done)
  }

  lemma PassingOn(read: Decoder, n: nat, restarts: seq<nat>, done: seq<Item>, cursor: nat, previous: bytes, e: Item)
    requires Passing(read, n, restarts, done, cursor, previous) && Reached(read, n, done + [e], e.next, e.key) && n > 0
    ensures if (cursor in restarts && e.shared != 0) || (done != [] && !Less(previous, e.key))
            then !Passes(read, n, restarts)
            else Passing(read, n, restarts, done + [e], e.next, e.key)
  {
    KeysIncreaseStep(done, e);
    if cursor in restarts && e.shared != 0 {
      SharedRestartFails(read, n, restarts, done, e);
    } else if done != [] && !Less(previous, e.key) {
      DisorderFails(read, n, restarts, done + [e], e.next, e.key);
    } else {
      RestartsWholeStep(restarts, done, e);
    }
  }

  /** One turn of the pass. */
  lemma PassingStep(read: Decoder, n: nat, restarts: seq<nat>, done: seq<Item>, cursor: nat, previous: bytes)
    requires Passing(read, n, restarts, done, cursor, previous) && cursor < n
    ensures var e := read(cursor, previous);
            if e.Err? || !(cursor < e.value.next <= n) || (cursor in restarts && e.value.shared != 0)
               || (done != [] && !Less(previous, e.value.key))
            then !Passes(read, n, restarts)
            else Passing(read, n, restarts, done + [e.value], e.value.next, e.value.key)
  {
    ReachedStep(read, n, done, cursor, previous);
    var r := read(cursor, previous);
    if r.Ok? && cursor < r.value.next <= n {
      PassingOn(read, n, restarts, done, cursor, previous, r.value);
    }
  }

  lemma PassingStarts(read: Decoder, n: nat, restarts: seq<nat>)
    ensures Passing(read, n, restarts, [], 0, []) && Hits(restarts, []) == {}
  {
    AfterNothing(Items(read, n, 0, []));
  }

  lemma PassingEnds(read: Decoder, n: nat, restarts: seq<nat>, done: seq<Item>, previous: bytes)
    requires OffsetsFit(restarts, n) && Passing(read, n, restarts, done, n, previous)
    ensures Items(read, n, 0, []) == Ok(done)
    ensures Passes(read, n, restarts) <==> (if n == 0 then 1 else |Hits(restarts, done)|) == |restarts|
  {
    ConcatAssociative(done, [], []);
    CountDecides(restarts, done);
  }

  method CheckEntries(read: Decoder, n: nat, restarts: seq<nat>) returns (ok: bool, count: nat)
    requires OffsetsFit(restarts, n)
    ensures ok <==> Passes(read, n, restarts)
    ensures ok ==> count == |Items(read, n, 0, []).value|
  {
    var cursor := 0;
    var previous: bytes := [];
    var observed := 0;
    count := 0;
    ghost var done: seq<Item> := [];
    PassingStarts(read, n, restarts);
    while cursor < n
      invariant Passing(read, n, restarts, done, cursor, previous)
      invariant count == |done| && observed == |Hits(restarts, done)|
      decreases n - cursor
    {
      PassingStep(read, n, restarts, done, cursor, previous);
      if cursor in restarts {
        observed := observed + 1;
      }
      var e := read(cursor, previous);
      if e.Err? || !(cursor < e.value.next <= n) {
        return false, count;
      }
      if cursor in restarts && e.value.shared != 0 {
        return false, count;
      }
      if count != 0 && !Less(previous, e.value.key) {
        return false, count;
      }
      HitsStep(restarts, done, e.value);
      done := done + [e.value];
      previous := e.value.key;
      cursor := e.value.next;
      count := count + 1;
    }
    if n == 0 {
      observed := 1;
    }
    PassingEnds(read, n, restarts, done, previous);
    ok := observed == |restarts|;
  }

  /** A block is accepted exactly when it is well formed, and then it is the block its bytes describe. */
  method Decode(encoded: bytes) returns (r: Result<Block>)
    ensures r.Ok? <==> Acceptable(encoded)
    ensures r.Ok? ==> r.value == BlockOf(encoded)
  {
    if |encoded| < 2 * WORD || RestartCount(encoded) == 0 || WORD * RestartCount(encoded) + WORD > |encoded| {
      return Err;
    }
    var offsets := ReadOffsets(encoded);
    var entries := encoded[..EntriesEnd(encoded)];
    AcceptableIff(encoded);
    if offsets.Err? {
      return Err;
    }
    var ok, count := CheckEntries(DecoderOf(entries), |entries|, offsets.value);
    if !ok {
      return Err;
    }
    return Ok(Block(entries, offsets.value, count));
  }

  /** Acceptance splits into the check of the offsets and the pass over the entries. */
  lemma AcceptableIff(s: bytes)
    requires HasFooter(s)
    ensures Acceptable(s) <==>
            && OffsetsFit(FooterOffsets(s), EntriesEnd(s))
            && Passes(DecoderOf(s[..EntriesEnd(s)]), EntriesEnd(s), FooterOffsets(s))
  {
    var b := BlockOf(s);
    CheckedIff(DecoderOf(b.entries), |b.entries|, b.restarts);
  }

  lemma CheckedIff(read: Decoder, n: nat, restarts: seq<nat>)
    ensures OffsetsFit(restarts, n) && Passes(read, n, restarts)
       <==> Items(read, n, 0, []).Ok? && Checked(read, n, restarts, Items(read, n, 0, []).value)
  {
    if Items(read, n, 0, []).Ok? && Checked(read, n, restarts, Items(read, n, 0, []).value) && n > 0 {
      var items := Items(read, n, 0, []).value;
      forall k | 0 <= k < |restarts| ensures restarts[k] < n {
        assert RestartsAt(items, restarts[k]);
        var i :| 0 <= i < |items| && Start(items, i) == restarts[k];
        EntryOf(read, n, restarts, items, i);
      }
    }
  }
}
