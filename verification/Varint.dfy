/** Unsigned LEB128 integers of at most ten bytes, in shortest form only. */
module Varints {
  import opened Bytes

  const MAX_VARINT := 10

  /** One past the largest number that still fits when `i` bytes have been read. */
  function Room(i: nat): (r: nat)
    requires i < MAX_VARINT
    ensures r > 0
    decreases MAX_VARINT - i
  {
    if i == 9 then 2 else 128 * Room(i + 1)
  }

  lemma RoomIsU64()
    ensures Room(0) == 0x1_0000_0000_0000_0000
  {
    assert Room(8) == 128 * 2;
    assert Room(6) == 128 * 128 * Room(8);
    assert Room(4) == 128 * 128 * Room(6);
    assert Room(2) == 128 * 128 * Room(4);
    assert Room(0) == 128 * 128 * Room(2);
  }

  function Put(n: nat): (r: bytes)
    ensures |r| > 0
  {
    if n < 128 then [n] else [n % 128 + 128] + Put(n / 128)
  }

  /** Reads a number whose first `i` bytes have already been consumed. */
  function ReadAt(s: bytes, i: nat): (r: Result<(nat, nat)>)
    requires i <= MAX_VARINT
    ensures r.Ok? ==> 0 < r.value.1 <= |s| && r.value.1 + i <= MAX_VARINT
    decreases MAX_VARINT - i
  {
    if i == MAX_VARINT || s == [] then Err
    else if i == 9 && s[0] > 1 then Err
    else if s[0] < 128 then
      if i > 0 && s[0] == 0 then Err else Ok((s[0], 1))
    else
      var rest := ReadAt(s[1..], i + 1);
      if rest.Err? then Err else Ok((s[0] - 128 + 128 * rest.value.0, rest.value.1 + 1))
  }

  /** The number at position `start` and the bytes it occupies. */
  function Read(s: bytes, start: nat): (r: Result<(nat, nat)>)
    ensures r.Ok? ==> r.value.1 > 0 && start + r.value.1 <= |s|
  {
    if start > |s| then Err else ReadAt(s[start..], 0)
  }

  /** Every number read is a `u64`. */
  lemma {:induction false} ReadFits(s: bytes, i: nat)
    requires i < MAX_VARINT && ReadAt(s, i).Ok?
    ensures ReadAt(s, i).value.0 < Room(i)
    decreases MAX_VARINT - i
  {
    if s[0] >= 128 {
      ReadFits(s[1..], i + 1);
    } else if i < 9 {
      assert Room(i + 1) >= 1;
    }
  }

  /** Reading inverts writing, whatever follows. */
  lemma {:induction false} ReadPut(n: nat, i: nat, tail: bytes)
    requires i < MAX_VARINT && n < Room(i) && (i > 0 ==> n > 0)
    ensures ReadAt(Put(n) + tail, i) == Ok((n, |Put(n)|))
    decreases MAX_VARINT - i
  {
    var s := Put(n) + tail;
    if n >= 128 {
      assert i < 9;
      ReadPut(n / 128, i + 1, tail);
      assert s[1..] == Put(n / 128) + tail;
    }
  }

  /** Only the shortest form is accepted: a number read is the number written. */
  lemma {:induction false} PutRead(s: bytes, i: nat)
    requires i <= MAX_VARINT && ReadAt(s, i).Ok?
    ensures s[..ReadAt(s, i).value.1] == Put(ReadAt(s, i).value.0)
    ensures i > 0 ==> ReadAt(s, i).value.0 > 0
    decreases MAX_VARINT - i
  {
    var (n, k) := ReadAt(s, i).value;
    if s[0] >= 128 {
      PutRead(s[1..], i + 1);
      assert n / 128 == ReadAt(s[1..], i + 1).value.0 && n % 128 + 128 == s[0];
      assert s[..k] == [s[0]] + s[1..][..k - 1];
    } else {
      assert s[..k] == [s[0]];
    }
  }

  lemma {:induction false} PutLength(n: nat, i: nat)
    requires i < MAX_VARINT && n < Room(i)
    ensures |Put(n)| + i <= MAX_VARINT
    ensures |Put(n)| <= 1 + n / 128
    decreases MAX_VARINT - i
  {
    if n >= 128 {
      PutLength(n / 128, i + 1);
    }
  }

  lemma PutShort(n: u64)
    ensures |Put(n)| <= MAX_VARINT && |Put(n)| <= 1 + n / 128
  {
    RoomIsU64();
    PutLength(n, 0);
  }

  /** Takes a number off the front of a string. */
  type NumberTaker = bytes -> Result<(nat, bytes)>

  function TakeNumber(s: bytes): (r: Result<(nat, bytes)>)
    ensures r.Ok? ==> |r.value.1| < |s|
  {
    var n := ReadAt(s, 0);
    if n.Err? then Err else Ok((n.value.0, s[n.value.1..]))
  }

  /** Taking a number off the front inverts writing it. */
  lemma TakeBack(n: u64, tail: bytes)
    ensures TakeNumber(Put(n) + tail) == Ok((n, tail))
  {
    RoomIsU64();
    ReadPut(n, 0, tail);
    ConcatParts(Put(n), tail);
  }

  // ----- The loops -----

  method PutVarint(buffer: bytes, n: u64) returns (r: bytes)
    ensures r == buffer + Put(n)
  {
    var value: nat := n;
    r := buffer;
    while value >= 128
      invariant r + Put(value) == buffer + Put(n)
      decreases value
    {
      ConcatAssociative(r, [value % 128 + 128], Put(value / 128));
      r := r + [value % 128 + 128];
      value := value / 128;
    }
    r := r + [value];
  }

  function Pow128(n: nat): (r: nat)
    ensures r > 0
  {
    if n == 0 then 1 else 128 * Pow128(n - 1)
  }

  /** Seven-bit group `i` of a number. */
  function Group(n: nat, i: nat): (r: nat) {
    n * Pow128(i)
  }

  /** A number read after `i` bytes contributed `low`. */
  function Onto(low: nat, i: nat, rest: Result<(nat, nat)>): Result<(nat, nat)> {
    if rest.Err? then Err else Ok((low + Group(rest.value.0, i), i + rest.value.1))
  }

  lemma GroupSplit(b: nat, n: nat, i: nat)
    ensures Group(b + 128 * n, i) == Group(b, i) + Group(n, i + 1)
  {
    var p := Pow128(i);
    assert (b + 128 * n) * p == b * p + (128 * n) * p;
    assert (128 * n) * p == n * (128 * p);
  }

  lemma ReadOn(s: bytes, i: nat, low: nat)
    requires i < |s| && i < 9 && s[i] >= 128
    ensures Onto(low, i, ReadAt(s[i..], i)) == Onto(low + Group(s[i] - 128, i), i + 1, ReadAt(s[i + 1..], i + 1))
  {
    assert s[i..][1..] == s[i + 1..];
    var rest := ReadAt(s[i + 1..], i + 1);
    if rest.Ok? {
      GroupSplit(s[i] - 128, rest.value.0, i);
    }
  }

  /** One turn of the reading loop. */
  lemma ReadStep(s: bytes, i: nat, low: nat)
    requires i <= |s| && i < MAX_VARINT
    ensures i == |s| ==> ReadAt(s[i..], i).Err?
    ensures i < |s| && i == 9 && s[i] > 1 ==> ReadAt(s[i..], i).Err?
    ensures i < |s| && !(i == 9 && s[i] > 1) && s[i] < 128 ==>
              Onto(low, i, ReadAt(s[i..], i)) ==
              if i > 0 && s[i] == 0 then Err else Ok((low + Group(s[i], i), i + 1))
    ensures i < |s| && !(i == 9 && s[i] > 1) && s[i] >= 128 ==>
              Onto(low, i, ReadAt(s[i..], i)) == Onto(low + Group(s[i] - 128, i), i + 1, ReadAt(s[i + 1..], i + 1))
  {
    if i < |s| && s[i] >= 128 && i < 9 {
      ReadOn(s, i, low);
    }
  }

  method ReadVarint(encoded: bytes, start: nat) returns (r: Result<(nat, nat)>)
    ensures r == Read(encoded, start)
  {
    var value: nat := 0;
    if start > |encoded| {
      return Err;
    }
    ghost var s := encoded[start..];
    ghost var whole := ReadAt(s, 0);
    assert s[0..] == s && Onto(0, 0, whole) == whole;
    for i := 0 to MAX_VARINT
      invariant i <= |s| && whole == Onto(value, i, ReadAt(s[i..], i))
    {
      ReadStep(s, i, value);
      if start + i >= |encoded| {
        return Err;
      }
      var b := encoded[start + i];
      if i == 9 && b > 1 {
        return Err;
      }
      if b < 128 {
        if i > 0 && b == 0 {
          return Err;
        }
        return Ok((value + Group(b, i), i + 1));
      }
      value := value + Group(b - 128, i);
    }
    return Err;
  }
}
