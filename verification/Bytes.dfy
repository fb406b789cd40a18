/** Byte strings, their lexicographic order, and fixed-width integer encodings. */
module Bytes {
  type byte = b: int | 0 <= b < 0x100
  type bytes = seq<byte>
  type u32 = n: int | 0 <= n < 0x1_0000_0000
  type u64 = n: int | 0 <= n < 0x1_0000_0000_0000_0000

  const U32_END := 0x1_0000_0000
  const U64_MAX: u64 := 0xffff_ffff_ffff_ffff

  datatype Option<+T> = None | Some(value: T)

  datatype Result<+T> = Ok(value: T) | Err

  // ----- Sequence algebra -----

  predicate Distinct<T(==)>(s: seq<T>) {
    forall i, j | 0 <= i < j < |s| :: s[i] != s[j]
  }

  function Zeros(n: nat): (r: bytes)
    ensures |r| == n && forall i | 0 <= i < n :: r[i] == 0
  {
    seq(n, _ => 0)
  }

  lemma TakeDrop<T>(s: seq<T>, n: nat)
    requires n <= |s|
    ensures s[..n] + s[n..] == s
    ensures s[0..] == s && s[..|s|] == s
  {
  }

  lemma DropDrop<T>(s: seq<T>, m: nat, n: nat)
    requires m <= n <= |s|
    ensures s[m..][n - m..] == s[n..]
    ensures s[m..][..n - m] == s[m..n]
    ensures s[..n][..m] == s[..m]
    ensures s[..n][m..] == s[m..n]
  {
  }

  lemma ConcatAssociative<T>(a: seq<T>, b: seq<T>, c: seq<T>)
    ensures (a + b) + c == a + (b + c)
    ensures a + [] == a && [] + a == a
  {
  }

  lemma ConcatParts<T>(a: seq<T>, b: seq<T>)
    ensures (a + b)[..|a|] == a && (a + b)[|a|..] == b
  {
  }

  lemma TakeConcat<T>(a: seq<T>, b: seq<T>, n: nat)
    requires |a| <= n <= |a| + |b|
    ensures (a + b)[..n] == a + b[..n - |a|]
  {
  }

  // ----- Concatenation of many pieces -----

  function Join<T>(pieces: seq<seq<T>>): seq<T> {
    if pieces == [] then [] else Join(pieces[..|pieces| - 1]) + pieces[|pieces| - 1]
  }

  /** Where piece `i` begins. */
  function At<T>(pieces: seq<seq<T>>, i: nat): nat
    requires i <= |pieces|
  {
    |Join(pieces[..i])|
  }

  lemma JoinStep<T>(pieces: seq<seq<T>>, i: nat)
    requires i < |pieces|
    ensures Join(pieces[..i + 1]) == Join(pieces[..i]) + pieces[i]
    ensures At(pieces, i + 1) == At(pieces, i) + |pieces[i]|
  {
    var upto := pieces[..i + 1];
    assert upto[..i] == pieces[..i] && upto[i] == pieces[i];
  }

  lemma JoinSnoc<T>(pieces: seq<seq<T>>, p: seq<T>)
    ensures Join(pieces + [p]) == Join(pieces) + p
    ensures forall i | 0 <= i <= |pieces| :: At(pieces + [p], i) == At(pieces, i)
  {
    var all := pieces + [p];
    assert all[..|pieces|] == pieces;
    forall i | 0 <= i <= |pieces| ensures At(all, i) == At(pieces, i) {
      assert all[..i] == pieces[..i];
    }
  }

  lemma JoinEnds<T>(pieces: seq<seq<T>>)
    ensures At(pieces, 0) == 0 && At(pieces, |pieces|) == |Join(pieces)|
  {
    assert pieces[..|pieces|] == pieces;
  }

  lemma {:induction false} JoinPrefix<T>(pieces: seq<seq<T>>, i: nat)
    requires i <= |pieces|
    ensures Join(pieces[..i]) <= Join(pieces)
    decreases |pieces| - i
  {
    if i < |pieces| {
      JoinStep(pieces, i);
      JoinPrefix(pieces, i + 1);
    } else {
      assert pieces[..i] == pieces;
    }
  }

  /** Piece `i` stands at its offset in the whole. */
  lemma JoinAt<T>(pieces: seq<seq<T>>, i: nat)
    requires i < |pieces|
    ensures At(pieces, i + 1) == At(pieces, i) + |pieces[i]| <= |Join(pieces)|
    ensures Join(pieces)[At(pieces, i)..] == pieces[i] + Join(pieces)[At(pieces, i + 1)..]
    ensures Join(pieces)[At(pieces, i)..At(pieces, i + 1)] == pieces[i]
  {
    JoinStep(pieces, i);
    JoinPrefix(pieces, i + 1);
    SplitAfter(Join(pieces), Join(pieces[..i]), pieces[i]);
  }

  lemma SplitAfter<T>(s: seq<T>, front: seq<T>, p: seq<T>)
    requires front + p <= s
    ensures s[|front|..] == p + s[|front| + |p|..]
    ensures s[|front|..|front| + |p|] == p
  {
    var upto := front + p;
    assert s == upto + s[|upto|..];
  }

  lemma {:induction false} AtAscends<T>(pieces: seq<seq<T>>, i: nat, j: nat)
    requires i <= j <= |pieces|
    requires forall k | 0 <= k < |pieces| :: pieces[k] != []
    ensures At(pieces, i) + (j - i) <= At(pieces, j)
    decreases j - i
  {
    if i < j {
      JoinStep(pieces, j - 1);
      AtAscends(pieces, i, j - 1);
    }
  }

  /** Equally wide pieces stand at multiples of their width. */
  lemma {:induction false} AtMultiple<T>(pieces: seq<seq<T>>, w: nat, i: nat)
    requires i <= |pieces| && forall k | 0 <= k < |pieces| :: |pieces[k]| == w
    ensures At(pieces, i) == w * i
    decreases i
  {
    if i > 0 {
      JoinStep(pieces, i - 1);
      AtMultiple(pieces, w, i - 1);
    } else {
      JoinEnds(pieces);
    }
  }

  // ----- Lexicographic order -----

  /** Length of the longest common prefix. */
  function Shared(a: bytes, b: bytes): (k: nat)
    ensures k <= |a| && k <= |b|
    ensures a[..k] == b[..k]
    ensures k < |a| && k < |b| ==> a[k] != b[k]
  {
    if a == [] || b == [] || a[0] != b[0] then 0 else
      var k := 1 + Shared(a[1..], b[1..]);
      assert a[..k] == [a[0]] + a[1..][..k - 1];
      assert b[..k] == [b[0]] + b[1..][..k - 1];
      k
  }

  /** Only one length satisfies the contract of `Shared`. */
  lemma SharedUnique(a: bytes, b: bytes, k: nat)
    requires k <= |a| && k <= |b| && a[..k] == b[..k]
    requires k < |a| && k < |b| ==> a[k] != b[k]
    ensures Shared(a, b) == k
  {
    var j := Shared(a, b);
    assert forall i | 0 <= i < k :: a[..k][i] == b[..k][i];
    assert forall i | 0 <= i < j :: a[..j][i] == b[..j][i];
  }

  /** The order of byte slices: a proper prefix comes first. */
  predicate Less(a: bytes, b: bytes) {
    LessFrom(a, b, 0)
  }

  predicate LessFrom(a: bytes, b: bytes, i: nat)
    decreases |a| - i
  {
    i < |b| && (i >= |a| || a[i] < b[i] || (a[i] == b[i] && LessFrom(a, b, i + 1)))
  }

  predicate LessEq(a: bytes, b: bytes) {
    a == b || Less(a, b)
  }

  /** One differing position decides the order. */
  lemma LessAt(a: bytes, b: bytes, k: nat)
    requires k <= |a| && k <= |b| && a[..k] == b[..k]
    requires k < |a| && k < |b| ==> a[k] != b[k]
    ensures Less(a, b) <==> k < |b| && (k == |a| || a[k] < b[k])
  {
    assert forall i | 0 <= i < k :: a[..k][i] == b[..k][i];
    LessFromAt(a, b, 0, k);
  }

  lemma {:induction false} LessFromAt(a: bytes, b: bytes, i: nat, k: nat)
    requires i <= k <= |a| && k <= |b|
    requires forall j | i <= j < k :: a[j] == b[j]
    requires k < |a| && k < |b| ==> a[k] != b[k]
    ensures LessFrom(a, b, i) <==> k < |b| && (k == |a| || a[k] < b[k])
    decreases k - i
  {
    if i < k {
      LessFromAt(a, b, i + 1, k);
    }
  }

  /** The order read at the first position where the strings differ. */
  lemma LessByShared(a: bytes, b: bytes)
    ensures var k := Shared(a, b); Less(a, b) <==> k < |b| && (k == |a| || a[k] < b[k])
  {
    LessAt(a, b, Shared(a, b));
  }

  lemma LessIrreflexive(a: bytes)
    ensures !Less(a, a)
  {
    LessAt(a, a, |a|);
  }

  lemma LessTotal(a: bytes, b: bytes)
    ensures a != b ==> Less(a, b) || Less(b, a)
    ensures Less(a, b) ==> !Less(b, a) && a != b
  {
    var k := Shared(a, b);
    LessByShared(a, b);
    LessAt(b, a, k);
    LessIrreflexive(a);
    if k == |a| == |b| {
      assert a == a[..k] == b[..k] == b;
    }
  }

  lemma LessTransitive(a: bytes, b: bytes, c: bytes)
    requires Less(a, b) && Less(b, c)
    ensures Less(a, c)
  {
    var j, k := Shared(a, b), Shared(b, c);
    LessByShared(a, b);
    LessByShared(b, c);
    var m := if j < k then j else k;
    assert a[..m] == a[..j][..m] == b[..j][..m] == b[..m];
    assert c[..m] == c[..k][..m] == b[..k][..m] == b[..m];
    if j < k {
      assert c[j] == c[..k][j] == b[..k][j] == b[j];
    } else if k < j {
      assert a[k] == a[..j][k] == b[..j][k] == b[k];
    }
    LessAt(a, c, m);
  }

  /** A common prefix does not affect the order. */
  lemma LessPrefix(p: bytes, a: bytes, b: bytes)
    ensures Less(p + a, p + b) <==> Less(a, b)
  {
    var k := Shared(a, b);
    assert (p + a)[..|p| + k] == p + a[..k];
    assert (p + b)[..|p| + k] == p + b[..k];
    LessAt(p + a, p + b, |p| + k);
    LessByShared(a, b);
  }

  /** Strings that already differ inside equally long heads are ordered by their heads. */
  lemma LessHeads(a: bytes, b: bytes, x: bytes, y: bytes)
    requires |a| == |b| && a != b
    ensures Less(a + x, b + y) <==> Less(a, b)
  {
    var k := Shared(a, b);
    assert a == a[..k] + a[k..] && b == b[..k] + b[k..];
    assert (a + x)[..k] == a[..k];
    assert (b + y)[..k] == b[..k];
    LessAt(a + x, b + y, k);
    LessByShared(a, b);
  }

  // ----- Fixed-width integers -----

  function Pow256(n: nat): (r: nat)
    ensures r > 0
  {
    if n == 0 then 1 else 256 * Pow256(n - 1)
  }

  /** Big-endian bytes of the low `w` bytes of `n`. */
  function BigEndian(n: nat, w: nat): (r: bytes)
    ensures |r| == w
  {
    if w == 0 then [] else BigEndian(n / 256, w - 1) + [n % 256]
  }

  function FromBigEndian(s: bytes): (n: nat)
    ensures n < Pow256(|s|)
  {
    if s == [] then 0 else
      var m := FromBigEndian(s[..|s| - 1]);
      assert 256 * m + s[|s| - 1] < 256 * Pow256(|s| - 1);
      256 * m + s[|s| - 1]
  }

  /** Little-endian bytes of the low `w` bytes of `n`. */
  function LittleEndian(n: nat, w: nat): (r: bytes)
    ensures |r| == w
  {
    if w == 0 then [] else [n % 256] + LittleEndian(n / 256, w - 1)
  }

  function FromLittleEndian(s: bytes): (n: nat)
    ensures n < Pow256(|s|)
  {
    if s == [] then 0 else
      var m := FromLittleEndian(s[1..]);
      assert s[0] + 256 * m < 256 * Pow256(|s| - 1);
      s[0] + 256 * m
  }

  lemma {:induction false} BigEndianRoundTrip(n: nat, w: nat)
    requires n < Pow256(w)
    ensures FromBigEndian(BigEndian(n, w)) == n
  {
    if w > 0 {
      BigEndianRoundTrip(n / 256, w - 1);
      var r := BigEndian(n, w);
      assert r[..w - 1] == BigEndian(n / 256, w - 1);
    }
  }

  lemma {:induction false} FromBigEndianRoundTrip(s: bytes)
    ensures BigEndian(FromBigEndian(s), |s|) == s
  {
    if s != [] {
      FromBigEndianRoundTrip(s[..|s| - 1]);
      var n := FromBigEndian(s);
      assert n / 256 == FromBigEndian(s[..|s| - 1]) && n % 256 == s[|s| - 1];
      assert s == s[..|s| - 1] + [s[|s| - 1]];
    }
  }

  lemma {:induction false} LittleEndianRoundTrip(n: nat, w: nat)
    requires n < Pow256(w)
    ensures FromLittleEndian(LittleEndian(n, w)) == n
  {
    if w > 0 {
      LittleEndianRoundTrip(n / 256, w - 1);
      var r := LittleEndian(n, w);
      assert r[1..] == LittleEndian(n / 256, w - 1);
    }
  }

  lemma {:induction false} FromLittleEndianRoundTrip(s: bytes)
    ensures LittleEndian(FromLittleEndian(s), |s|) == s
  {
    if s != [] {
      FromLittleEndianRoundTrip(s[1..]);
      var n := FromLittleEndian(s);
      assert n / 256 == FromLittleEndian(s[1..]) && n % 256 == s[0];
      assert s == [s[0]] + s[1..];
    }
  }

  /** Big-endian encodings of one width are ordered like the numbers. */
  lemma {:induction false} BigEndianOrder(a: nat, b: nat, w: nat)
    requires a < Pow256(w) && b < Pow256(w)
    ensures Less(BigEndian(a, w), BigEndian(b, w)) <==> a < b
    decreases w
  {
    if w == 0 {
      LessIrreflexive([]);
    } else {
      var x, y := BigEndian(a / 256, w - 1), BigEndian(b / 256, w - 1);
      BigEndianOrder(a / 256, b / 256, w - 1);
      if x == y {
        BigEndianRoundTrip(a / 256, w - 1);
        BigEndianRoundTrip(b / 256, w - 1);
        LessPrefix(x, [a % 256], [b % 256]);
        if a % 256 == b % 256 {
          LessIrreflexive([a % 256]);
        } else {
          LessAt([a % 256], [b % 256], 0);
        }
      } else {
        LessHeads(x, y, [a % 256], [b % 256]);
        LessTotal(x, y);
        BigEndianOrder(b / 256, a / 256, w - 1);
      }
    }
  }

  lemma Pow256Values()
    ensures Pow256(2) == 0x1_0000
    ensures Pow256(4) == 0x1_0000_0000
    ensures Pow256(8) == 0x1_0000_0000_0000_0000
  {
    assert Pow256(2) == 0x1_0000;
    assert Pow256(4) == 256 * 256 * Pow256(2);
    assert Pow256(6) == 256 * 256 * Pow256(4);
    assert Pow256(8) == 256 * 256 * Pow256(6);
  }
}
