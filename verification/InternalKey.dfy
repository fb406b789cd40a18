/** Storage keys: a user key, a commit sequence and a value kind, and their
    order-preserving byte encoding. */
module InternalKeys {
  import opened Bytes

  datatype ValueKind = Deletion | Value

  /** `seqno` is a committed sequence; the largest `u64` is reserved. */
  datatype InternalKey = InternalKey(user: bytes, seqno: u64, kind: ValueKind)

  const TRAILER_BYTES := 9

  predicate ValidSequence(n: u64) {
    n < U64_MAX
  }

  /** User keys ascend, sequences descend, kinds break ties. */
  predicate KeyLess(a: InternalKey, b: InternalKey) {
    || Less(a.user, b.user)
    || (a.user == b.user
        && (a.seqno > b.seqno || (a.seqno == b.seqno && a.kind == Deletion && b.kind == Value)))
  }

  // ----- Encoding -----

  function KindByte(kind: ValueKind): byte {
    if kind == Deletion then 0 else 1
  }

  /** Zero bytes become `00 ff`; every other byte is copied. */
  function EscapeByte(b: byte): (r: bytes)
    ensures 1 <= |r| <= 2
  {
    if b == 0 then [0, 0xff] else [b]
  }

  function Escape(user: bytes): (r: bytes)
    ensures |user| <= |r| <= 2 * |user|
  {
    if user == [] then [] else EscapeByte(user[0]) + Escape(user[1..])
  }

  lemma {:induction false} EscapeSnoc(user: bytes, b: byte)
    ensures Escape(user + [b]) == Escape(user) + EscapeByte(b)
  {
    var e := EscapeByte(b);
    var all := user + [b];
    if user == [] {
      assert all[1..] == [];
      assert [] + e == e + [] == e;
    } else {
      EscapeSnoc(user[1..], b);
      assert all[1..] == user[1..] + [b];
      assert EscapeByte(user[0]) + (Escape(user[1..]) + e) == Escape(user) + e;
    }
  }

  function Trailer(seqno: u64, kind: ValueKind): (r: bytes)
    ensures |r| == TRAILER_BYTES
  {
    BigEndian(U64_MAX - seqno, 8) + [KindByte(kind)]
  }

  function Encode(k: InternalKey): (r: bytes)
    ensures |k.user| + 11 <= |r| <= 2 * |k.user| + 11
  {
    Escape(k.user) + [0, 0] + Trailer(k.seqno, k.kind)
  }

  /** Appends the escaped and terminated user key to an output buffer. */
  method EncodeUserKey(user: bytes, buffer: bytes) returns (encoded: bytes)
    ensures encoded == buffer + Escape(user) + [0, 0]
  {
    encoded := buffer;
    for i := 0 to |user|
      invariant encoded == buffer + Escape(user[..i])
    {
      EscapeSnoc(user[..i], user[i]);
      assert user[..i + 1] == user[..i] + [user[i]];
      if user[i] == 0 {
        encoded := encoded + [0, 0xff];
      } else {
        encoded := encoded + [user[i]];
      }
    }
    assert user[..|user|] == user;
    encoded := encoded + [0, 0];
  }

  method TryNew(user: bytes, seqno: u64, kind: ValueKind) returns (r: Result<bytes>)
    ensures r.Ok? <==> ValidSequence(seqno)
    ensures r.Ok? ==> r.value == Encode(InternalKey(user, seqno, kind))
  {
    if !ValidSequence(seqno) {
      return Err;
    }
    var encoded := EncodeUserKey(user, []);
    assert encoded == Escape(user) + [0, 0];
    var trailer := BigEndian(U64_MAX - seqno, 8) + [KindByte(kind)];
    return Ok(encoded + trailer);
  }

  // ----- Decoding -----

  /** The user key at the front of `s` and the number of bytes it occupies with its terminator. */
  function ParseUser(s: bytes): (r: Result<(bytes, nat)>)
    ensures r.Ok? ==> 2 <= r.value.1 <= |s|
  {
    if s == [] then Err
    else if s[0] != 0 then
      var rest := ParseUser(s[1..]);
      if rest.Err? then Err else Ok(([s[0]] + rest.value.0, rest.value.1 + 1))
    else if |s| < 2 then Err
    else if s[1] == 0 then Ok(([], 2))
    else if s[1] == 0xff then
      var rest := ParseUser(s[2..]);
      if rest.Err? then Err else Ok(([0] + rest.value.0, rest.value.1 + 2))
    else Err
  }

  /** The bytes read by a successful parse are the escaped key and its terminator. */
  lemma {:induction false} ParsedBytes(s: bytes)
    requires ParseUser(s).Ok?
    ensures var (u, n) := ParseUser(s).value; s[..n] == Escape(u) + [0, 0]
  {
    var (u, n) := ParseUser(s).value;
    var k := if s[0] != 0 then 1 else 2;
    if s[0] == 0 && s[1] == 0 {
      assert s[..2] == [0, 0];
    } else {
      var rest := s[k..];
      ParsedBytes(rest);
      var (v, m) := ParseUser(rest).value;
      assert u == [u[0]] + v && n == k + m && s[..k] == EscapeByte(u[0]);
      SplitFront(s, k, m);
      EscapeCons(u[0], v);
    }
  }

  lemma SplitFront(s: bytes, k: nat, m: nat)
    requires k + m <= |s|
    ensures s[..k + m] == s[..k] + s[k..][..m]
  {
  }

  lemma EscapeCons(b: byte, v: bytes)
    ensures Escape([b] + v) + [0, 0] == EscapeByte(b) + (Escape(v) + [0, 0])
  {
    assert ([b] + v)[1..] == v;
  }

  function Decode(s: bytes): Result<InternalKey> {
    var parsed := ParseUser(s);
    if parsed.Err? then Err else
      var (user, start) := parsed.value;
      if |s| - start != TRAILER_BYTES || s[|s| - 1] > 1 then Err else
        Pow256Values();
        var seqno := U64_MAX - FromBigEndian(s[start..start + 8]);
        if !ValidSequence(seqno) then Err else
          Ok(InternalKey(user, seqno, if s[|s| - 1] == 0 then Deletion else Value))
  }

  /** Continues a parse that has already read `user` from the first `n` bytes. */
  function Resume(user: bytes, n: nat, rest: Result<(bytes, nat)>): Result<(bytes, nat)> {
    if rest.Err? then Err else Ok((user + rest.value.0, n + rest.value.1))
  }

  method DecodeUserKey(encoded: bytes) returns (r: Result<(bytes, nat)>)
    ensures r == ParseUser(encoded)
  {
    var user: bytes := [];
    var index := 0;
    assert encoded[0..] == encoded;
    assert ParseUser(encoded).Ok? ==> [] + ParseUser(encoded).value.0 == ParseUser(encoded).value.0;
    while index < |encoded|
      invariant index <= |encoded|
      invariant ParseUser(encoded) == Resume(user, index, ParseUser(encoded[index..]))
    {
      ParseUserStep(user, encoded, index);
      var b := encoded[index];
      if b != 0 {
        user := user + [b];
        index := index + 1;
        continue;
      }
      if index + 1 == |encoded| {
        return Err;
      }
      var follower := encoded[index + 1];
      if follower == 0 {
        return Ok((user, index + 2));
      } else if follower == 0xff {
        user := user + [0];
        index := index + 2;
      } else {
        return Err;
      }
    }
    return Err;
  }

  /** One turn of the unescaping loop. */
  lemma ParseUserStep(user: bytes, s: bytes, i: nat)
    requires i < |s|
    ensures s[i] != 0 ==>
              Resume(user, i, ParseUser(s[i..])) == Resume(user + [s[i]], i + 1, ParseUser(s[i + 1..]))
    ensures s[i] == 0 && i + 1 == |s| ==> ParseUser(s[i..]).Err?
    ensures s[i] == 0 && i + 1 < |s| ==>
              Resume(user, i, ParseUser(s[i..])) ==
              if s[i + 1] == 0 then Ok((user, i + 2))
              else if s[i + 1] == 0xff then Resume(user + [0], i + 2, ParseUser(s[i + 2..]))
              else Err
  {
    var t := s[i..];
    if s[i] != 0 {
      assert t[1..] == s[i + 1..];
      ResumeStep(user, [s[i]], i, 1, ParseUser(s[i + 1..]));
    } else if i + 1 < |s| {
      assert t[2..] == s[i + 2..];
      assert user + [] == user;
      ResumeStep(user, [0], i, 2, ParseUser(s[i + 2..]));
    }
  }

  lemma ResumeStep(user: bytes, more: bytes, n: nat, k: nat, rest: Result<(bytes, nat)>)
    ensures Resume(user, n, Resume(more, k, rest)) == Resume(user + more, n + k, rest)
  {
    if rest.Ok? {
      assert user + (more + rest.value.0) == (user + more) + rest.value.0;
    }
  }

  lemma {:induction false} ParseUserOfEscape(user: bytes, tail: bytes)
    ensures ParseUser(Terminated(user, tail)) == Ok((user, |Escape(user)| + 2))
  {
    var s := Terminated(user, tail);
    FrontBytes(user, tail);
    if user != [] {
      var rest := Terminated(user[1..], tail);
      ParseUserOfEscape(user[1..], tail);
      TerminatedStep(user, tail);
      assert s[|EscapeByte(user[0])|..] == rest;
      assert user == [user[0]] + user[1..];
    }
  }

  lemma TrailerAt(k: InternalKey)
    ensures var s, start := Encode(k), |Escape(k.user)| + 2;
            && |s| == start + 9 && s[start..start + 8] == BigEndian(U64_MAX - k.seqno, 8)
            && s[|s| - 1] == KindByte(k.kind)
  {
  }

  /** Decoding inverts encoding. */
  lemma DecodeEncode(k: InternalKey)
    requires ValidSequence(k.seqno)
    ensures Decode(Encode(k)) == Ok(k)
  {
    ParseUserOfEscape(k.user, Trailer(k.seqno, k.kind));
    TrailerAt(k);
    Pow256Values();
    BigEndianRoundTrip(U64_MAX - k.seqno, 8);
  }

  lemma KeyParts(s: bytes, start: nat)
    requires start + TRAILER_BYTES == |s|
    ensures s == s[..start] + (s[start..start + 8] + [s[|s| - 1]])
  {
  }

  /** Every accepted byte string is the encoding of the key it decodes to. */
  lemma EncodeDecode(s: bytes)
    requires Decode(s).Ok?
    ensures ValidSequence(Decode(s).value.seqno)
    ensures Encode(Decode(s).value) == s
  {
    var (user, start) := ParseUser(s).value;
    var k := Decode(s).value;
    ParsedBytes(s);
    Pow256Values();
    FromBigEndianRoundTrip(s[start..start + 8]);
    KeyParts(s, start);
    assert s[..start] == Escape(user) + [0, 0];
    assert U64_MAX - k.seqno == FromBigEndian(s[start..start + 8]);
    assert BigEndian(U64_MAX - k.seqno, 8) == s[start..start + 8];
  }

  // ----- Order -----

  /** Different user keys are ordered by their escaped forms, whatever follows the terminators. */
  lemma {:induction false} EscapeOrder(u: bytes, v: bytes, x: bytes, y: bytes)
    requires u != v
    ensures Less(Terminated(u, x), Terminated(v, y)) <==> Less(u, v)
    decreases |u|
  {
    if u == [] || v == [] || u[0] != v[0] {
      FrontOrder(u, v, x, y);
    } else {
      var u', v' := u[1..], v[1..];
      assert u == [u[0]] + u' && v == [u[0]] + v';
      EscapeOrder(u', v', x, y);
      LessPrefix([u[0]], u', v');
      LessPrefix(EscapeByte(u[0]), Terminated(u', x), Terminated(v', y));
      TerminatedStep(u, x);
      TerminatedStep(v, y);
    }
  }

  function Terminated(user: bytes, tail: bytes): bytes {
    Escape(user) + [0, 0] + tail
  }

  lemma TerminatedStep(u: bytes, x: bytes)
    requires u != []
    ensures Terminated(u, x) == EscapeByte(u[0]) + Terminated(u[1..], x)
  {
  }

  /** The order when one key is empty or the first bytes differ. */
  lemma FrontOrder(u: bytes, v: bytes, x: bytes, y: bytes)
    requires u != v
    requires u == [] || v == [] || u[0] != v[0]
    ensures Less(Terminated(u, x), Terminated(v, y)) <==> Less(u, v)
  {
    var a, b := Terminated(u, x), Terminated(v, y);
    FrontBytes(u, x);
    FrontBytes(v, y);
    LessAt(u, v, 0);
    if a[0] != b[0] {
      LessAt(a, b, 0);
    } else {
      assert a[..1] == [a[0]] == b[..1];
      LessAt(a, b, 1);
    }
  }

  lemma FrontBytes(u: bytes, x: bytes)
    ensures |Terminated(u, x)| >= 2
    ensures Terminated(u, x)[0] == if u == [] then 0 else u[0]
    ensures u == [] ==> Terminated(u, x)[1] == 0
    ensures u != [] && u[0] == 0 ==> Terminated(u, x)[1] == 0xff
  {
    if u != [] {
      var e := EscapeByte(u[0]);
      TerminatedStep(u, x);
      assert Terminated(u, x)[..|e|] == e;
      assert e[0] == u[0] && (u[0] == 0 ==> e[1] == 0xff);
    }
  }

  lemma LastByteOrder(x: bytes, j: byte, y: bytes, k: byte)
    requires |x| == |y|
    ensures Less(x + [j], y + [k]) <==> Less(x, y) || (x == y && j < k)
  {
    if x == y {
      LessIrreflexive(x);
      LessPrefix(x, [j], [k]);
      if j == k {
        LessIrreflexive([j]);
      } else {
        LessAt([j], [k], 0);
      }
    } else {
      LessHeads(x, y, [j], [k]);
    }
  }

  lemma TrailerOrder(m: u64, j: ValueKind, n: u64, k: ValueKind)
    ensures Less(Trailer(m, j), Trailer(n, k))
       <==> m > n || (m == n && j == Deletion && k == Value)
  {
    var a, b := U64_MAX - m, U64_MAX - n;
    var x, y := BigEndian(a, 8), BigEndian(b, 8);
    assert (Less(x, y) <==> a < b) && (x == y <==> a == b) by {
      Pow256Values();
      BigEndianOrder(a, b, 8);
      BigEndianRoundTrip(a, 8);
      BigEndianRoundTrip(b, 8);
    }
    LastByteOrder(x, KindByte(j), y, KindByte(k));
  }

  /** Byte order of encodings is exactly the order of the keys. */
  lemma EncodingOrder(a: InternalKey, b: InternalKey)
    ensures Less(Encode(a), Encode(b)) <==> KeyLess(a, b)
  {
    if a.user == b.user {
      LessIrreflexive(a.user);
      LessPrefix(Escape(a.user) + [0, 0], Trailer(a.seqno, a.kind), Trailer(b.seqno, b.kind));
      TrailerOrder(a.seqno, a.kind, b.seqno, b.kind);
    } else {
      EscapeOrder(a.user, b.user, Trailer(a.seqno, a.kind), Trailer(b.seqno, b.kind));
    }
  }

  /** Different keys have different encodings. */
  lemma EncodeInjective(a: InternalKey, b: InternalKey)
    requires Encode(a) == Encode(b)
    ensures a == b
  {
    LessIrreflexive(Encode(a));
    EncodingOrder(a, b);
    EncodingOrder(b, a);
    LessTotal(a.user, b.user);
  }

  lemma KeyLessTotal(a: InternalKey, b: InternalKey)
    ensures a != b ==> KeyLess(a, b) || KeyLess(b, a)
    ensures KeyLess(a, b) ==> !KeyLess(b, a) && a != b
  {
    LessTotal(a.user, b.user);
    LessIrreflexive(a.user);
  }

  lemma KeyLessTransitive(a: InternalKey, b: InternalKey, c: InternalKey)
    requires KeyLess(a, b) && KeyLess(b, c)
    ensures KeyLess(a, c)
  {
    if Less(a.user, b.user) && Less(b.user, c.user) {
      LessTransitive(a.user, b.user, c.user);
    }
  }
}
