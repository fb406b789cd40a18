/** Little readers over byte strings, shared by the record codecs. */
module Codecs {
  import opened Bytes

  /** A value read from the front of a string, and what follows it. */
  type Parsed<T> = Result<(T, bytes)>

  function Take(s: bytes, n: nat): Parsed<bytes> {
    if n <= |s| then Ok((s[..n], s[n..])) else Err
  }

  function TakeByte(s: bytes): Parsed<byte> {
    if s == [] then Err else Ok((s[0], s[1..]))
  }

  function U32(n: u32): bytes {
    LittleEndian(n, 4)
  }

  function U64(n: u64): bytes {
    LittleEndian(n, 8)
  }

  function TakeU32(s: bytes): Parsed<u32> {
    Pow256Values();
    if 4 <= |s| then Ok((FromLittleEndian(s[..4]), s[4..])) else Err
  }

  function TakeU64(s: bytes): Parsed<u64> {
    Pow256Values();
    if 8 <= |s| then Ok((FromLittleEndian(s[..8]), s[8..])) else Err
  }

  /** A marker byte, followed by a number when it is one. */
  function OptU64(n: Option<u64>): bytes {
    match n
    case None => [0]
    case Some(v) => [1] + U64(v)
  }

  function TakeOptU64(s: bytes): Parsed<Option<u64>> {
    if s == [] then Err
    else if s[0] == 0 then Ok((None, s[1..]))
    else if s[0] == 1 then
      match TakeU64(s[1..])
      case Err => Err
      case Ok((n, rest)) => Ok((Some(n), rest))
    else Err
  }

  lemma TakeU32Of(n: u32, rest: bytes)
    ensures TakeU32(U32(n) + rest) == Ok((n, rest))
  {
    Pow256Values();
    LittleEndianRoundTrip(n, 4);
    ConcatParts(U32(n), rest);
  }

  lemma TakeU64Of(n: u64, rest: bytes)
    ensures TakeU64(U64(n) + rest) == Ok((n, rest))
  {
    Pow256Values();
    LittleEndianRoundTrip(n, 8);
    ConcatParts(U64(n), rest);
  }

  lemma TakeOf(s: bytes, rest: bytes)
    ensures Take(s + rest, |s|) == Ok((s, rest))
  {
    ConcatParts(s, rest);
  }

  lemma TakeByteOf(b: byte, rest: bytes)
    ensures TakeByte([b] + rest) == Ok((b, rest))
  {
    ConcatParts([b], rest);
  }

  lemma TakeOptU64Of(n: Option<u64>, rest: bytes)
    ensures TakeOptU64(OptU64(n) + rest) == Ok((n, rest))
  {
    if n.Some? {
      TakeU64Of(n.value, rest);
      ConcatAssociative([1], U64(n.value), rest);
      ConcatParts([1], U64(n.value) + rest);
    } else {
      ConcatParts([0], rest);
    }
  }

  // ----- Accepted input is canonical -----

  lemma TakeU32Is(s: bytes)
    requires TakeU32(s).Ok?
    ensures s == U32(TakeU32(s).value.0) + TakeU32(s).value.1
  {
    FromLittleEndianRoundTrip(s[..4]);
    TakeDrop(s, 4);
  }

  lemma TakeU64Is(s: bytes)
    requires TakeU64(s).Ok?
    ensures s == U64(TakeU64(s).value.0) + TakeU64(s).value.1
  {
    FromLittleEndianRoundTrip(s[..8]);
    TakeDrop(s, 8);
  }

  lemma TakeByteIs(s: bytes)
    requires TakeByte(s).Ok?
    ensures s == [TakeByte(s).value.0] + TakeByte(s).value.1
  {
  }

  lemma TakeIs(s: bytes, n: nat)
    requires Take(s, n).Ok?
    ensures s == Take(s, n).value.0 + Take(s, n).value.1 && |Take(s, n).value.0| == n
  {
    TakeDrop(s, n);
  }

  lemma TakeOptU64Is(s: bytes)
    requires TakeOptU64(s).Ok?
    ensures s == OptU64(TakeOptU64(s).value.0) + TakeOptU64(s).value.1
  {
    assert s == [s[0]] + s[1..];
    if s[0] == 1 {
      TakeU64Is(s[1..]);
      var (n, rest) := TakeU64(s[1..]).value;
      ConcatAssociative([1], U64(n), rest);
    }
  }

  // ----- Lists -----

  function EncodeMany<T>(put: T --> bytes, xs: seq<T>): bytes
    requires forall x | x in xs :: put.requires(x)
    decreases |xs|
  {
    if xs == [] then [] else put(xs[0]) + EncodeMany(put, xs[1..])
  }

  function TakeMany<T>(take: bytes -> Parsed<T>, s: bytes, n: nat): Parsed<seq<T>>
    decreases n
  {
    if n == 0 then Ok(([], s)) else
      match take(s)
      case Err => Err
      case Ok((x, s1)) =>
        match TakeMany(take, s1, n - 1)
        case Err => Err
        case Ok((xs, rest)) => Ok(([x] + xs, rest))
  }

  /** A list is read back when each element is. */
  lemma {:induction false} TakeManyOf<T(!new)>(take: bytes -> Parsed<T>, put: T --> bytes, xs: seq<T>, rest: bytes)
    requires forall x | x in xs :: put.requires(x)
    requires forall x, r: bytes {:trigger take(put(x) + r)} | x in xs :: take(put(x) + r) == Ok((x, r))
    ensures TakeMany(take, EncodeMany(put, xs) + rest, |xs|) == Ok((xs, rest))
    decreases |xs|
  {
    if xs == [] {
      assert EncodeMany(put, xs) + rest == rest;
    } else {
      TakeManyOf(take, put, xs[1..], rest);
      ConcatAssociative(put(xs[0]), EncodeMany(put, xs[1..]), rest);
      assert take(put(xs[0]) + (EncodeMany(put, xs[1..]) + rest)).Ok?;
      assert xs == [xs[0]] + xs[1..];
    }
  }

  /** A list is canonical when each element is. */
  lemma {:induction false} TakeManyIs<T(!new)>(take: bytes -> Parsed<T>, put: T --> bytes, s: bytes, n: nat)
    requires TakeMany(take, s, n).Ok?
    requires forall t: bytes | take(t).Ok? ::
               put.requires(take(t).value.0) && t == put(take(t).value.0) + take(t).value.1
    ensures var (xs, rest) := TakeMany(take, s, n).value;
            |xs| == n && (forall x | x in xs :: put.requires(x)) && s == EncodeMany(put, xs) + rest
    decreases n
  {
    if n == 0 {
      assert EncodeMany(put, []) + s == s;
    } else {
      var (x, s1) := take(s).value;
      TakeManyIs(take, put, s1, n - 1);
      var (xs, rest) := TakeMany(take, s1, n - 1).value;
      assert ([x] + xs)[1..] == xs;
      ConcatAssociative(put(x), EncodeMany(put, xs), rest);
    }
  }

  function Prefixed<T>(xs: seq<T>, r: Parsed<seq<T>>): Parsed<seq<T>> {
    match r
    case Err => Err
    case Ok((more, rest)) => Ok((xs + more, rest))
  }

  lemma TakeManyStep<T>(take: bytes -> Parsed<T>, xs: seq<T>, s: bytes, n: nat)
    requires n > 0
    ensures Prefixed(xs, TakeMany(take, s, n)) ==
              match take(s)
              case Err => Err
              case Ok((x, rest)) => Prefixed(xs + [x], TakeMany(take, rest, n - 1))
  {
    if take(s).Ok? {
      var (x, rest) := take(s).value;
      var r := TakeMany(take, rest, n - 1);
      if r.Ok? {
        ConcatAssociative(xs, [x], r.value.0);
      }
    }
  }

  lemma PrefixedEmpty<T>(xs: seq<T>, s: bytes, r: Parsed<seq<T>>)
    ensures Prefixed([], r) == r && Prefixed<T>(xs, Ok(([], s))) == Ok((xs, s))
  {
    if r.Ok? {
      assert [] + r.value.0 == r.value.0;
    }
    assert xs + [] == xs;
  }

  /** Values taken so far, with the bytes and the number of values that are left, on the way to `goal`. */
  ghost function Readings<T(!new)>(take: bytes -> Parsed<T>, goal: Parsed<seq<T>>): iset<(seq<T>, bytes, int)> {
    iset x: (seq<T>, bytes, int) | x.2 >= 0 && goal == Prefixed(x.0, TakeMany(take, x.1, x.2))
  }

  lemma ReadingStarts<T(!new)>(take: bytes -> Parsed<T>, s: bytes, n: nat)
    ensures ([], s, n) in Readings(take, TakeMany(take, s, n))
  {
    PrefixedEmpty<T>([], [], TakeMany(take, s, n));
  }

  lemma ReadingStep<T(!new)>(take: bytes -> Parsed<T>, goal: Parsed<seq<T>>, xs: seq<T>, s: bytes, n: nat)
    requires (xs, s, n) in Readings(take, goal) && n > 0
    ensures take(s).Err? ==> goal == Err
    ensures take(s).Ok? ==> (xs + [take(s).value.0], take(s).value.1, n - 1) in Readings(take, goal)
  {
    TakeManyStep(take, xs, s, n);
  }

  lemma ReadingEnds<T(!new)>(take: bytes -> Parsed<T>, goal: Parsed<seq<T>>, xs: seq<T>, s: bytes)
    requires (xs, s, 0) in Readings(take, goal)
    ensures goal == Ok((xs, s))
  {
    PrefixedEmpty(xs, s, goal);
  }

  lemma {:induction false} EncodeManySnoc<T>(put: T --> bytes, xs: seq<T>, x: T)
    requires (forall y | y in xs :: put.requires(y)) && put.requires(x)
    ensures EncodeMany(put, xs + [x]) == EncodeMany(put, xs) + put(x)
    decreases |xs|
  {
    if xs == [] {
      assert xs + [x] == [x];
      assert EncodeMany(put, [x]) == put(x) + EncodeMany(put, []);
    } else {
      EncodeManySnoc(put, xs[1..], x);
      assert (xs + [x])[0] == xs[0] && (xs + [x])[1..] == xs[1..] + [x];
      ConcatAssociative(put(xs[0]), EncodeMany(put, xs[1..]), put(x));
    }
  }
}
