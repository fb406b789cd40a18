/** The Bloom filter of a table: double hashing over a bit array. */
module Bloom {
  import opened Bytes

  const MINIMUM_BITS := 64
  const MAXIMUM_PROBES := 30

  // ----- Hashing -----

  function XorByte(a: byte, b: byte): byte {
    ((a as bv8) ^ (b as bv8)) as byte
  }

  /** One round of 64-bit FNV-1a. */
  function HashByte(hash: u64, b: byte): u64 {
    (hash - hash % 256 + XorByte(hash % 256, b)) * 0x100_0000_01b3 % 0x1_0000_0000_0000_0000
  }

  function Hash(key: bytes): u64 {
    if key == [] then 0xcbf2_9ce4_8422_2325 else HashByte(Hash(key[..|key| - 1]), key[|key| - 1])
  }

  function FirstHash(hash: u64): u32 {
    hash % U32_END
  }

  /** The upper half, rotated right by 17 bits and made odd. */
  function SecondHash(hash: u64): u32 {
    var x := hash / U32_END;
    var r := x / 0x2_0000 + (x % 0x2_0000) * 0x8000;
    if r % 2 == 0 then r + 1 else r
  }

  /** The bit position of one probe. */
  function ProbeBit(hash: u64, probe: nat, bits: nat): (r: nat)
    requires bits > 0
    ensures r < bits
  {
    (FirstHash(hash) + probe * SecondHash(hash) % U32_END) % U32_END % bits
  }

  // ----- Bits -----

  predicate HasBit(n: nat, i: nat) {
    if i == 0 then n % 2 == 1 else HasBit(n / 2, i - 1)
  }

  function Raise(n: nat, i: nat): nat {
    if i == 0 then n - n % 2 + 1 else n % 2 + 2 * Raise(n / 2, i - 1)
  }

  function Pow2(w: nat): (r: nat)
    ensures r > 0
  {
    if w == 0 then 1 else 2 * Pow2(w - 1)
  }

  lemma {:induction false} RaiseFits(n: nat, i: nat, w: nat)
    requires i < w && n < Pow2(w)
    ensures Raise(n, i) < Pow2(w)
  {
    if i > 0 {
      RaiseFits(n / 2, i - 1, w - 1);
    } else {
      assert Pow2(w) % 2 == 0;
    }
  }

  lemma {:induction false} RaiseBit(n: nat, i: nat, j: nat)
    ensures HasBit(Raise(n, i), j) <==> j == i || HasBit(n, j)
  {
    if i > 0 && j > 0 {
      RaiseBit(n / 2, i - 1, j - 1);
    }
  }

  lemma {:induction false} NoBits(j: nat)
    ensures !HasBit(0, j)
  {
    if j > 0 {
      NoBits(j - 1);
    }
  }

  function WithBit(b: byte, i: nat): byte
    requires i < 8
  {
    assert Pow2(8) == 256;
    RaiseFits(b, i, 8);
    Raise(b, i)
  }

  /** Bit `p` of a bit array. */
  predicate BitAt(bits: bytes, p: nat)
    requires p < 8 * |bits|
  {
    HasBit(bits[p / 8], p % 8)
  }

  // ----- Building and asking -----

  predicate Probed(key: bytes, bits: nat, probes: nat, p: nat)
    requires bits > 0
  {
    exists i: nat | i < probes :: ProbeBit(Hash(key), i, bits) == p
  }

  method StableHash(key: bytes) returns (hash: u64)
    ensures hash == Hash(key)
  {
    hash := 0xcbf2_9ce4_8422_2325;
    for i := 0 to |key|
      invariant hash == Hash(key[..i])
    {
      assert key[..i + 1][..i] == key[..i];
      hash := HashByte(hash, key[i]);
    }
    assert key[..|key|] == key;
  }

  /** Sets exactly the probed bits of one key. */
  method SetKeyBits(bits: array<byte>, count: nat, probes: nat, key: bytes)
    requires count == 8 * bits.Length > 0
    modifies bits
    ensures forall p | 0 <= p < count :: BitAt(bits[..], p) <==>
              BitAt(old(bits[..]), p) || Probed(key, count, probes, p)
  {
    var hash := StableHash(key);
    ghost var was := bits[..];
    for i := 0 to probes
      invariant forall p | 0 <= p < count :: BitAt(bits[..], p) <==> BitAt(was, p) || Probed(key, count, i, p)
    {
      var bit := ProbeBit(hash, i, count);
      ghost var before := bits[..];
      bits[bit / 8] := WithBit(bits[bit / 8], bit % 8);
      BitWritten(before, bits[..], bit);
      forall p | 0 <= p < count ensures Probed(key, count, i + 1, p) <==> Probed(key, count, i, p) || p == bit {
        assert ProbeBit(Hash(key), i, count) == bit;
      }
    }
  }

  lemma BitWritten(before: bytes, after: bytes, bit: nat)
    requires |before| == |after| && bit < 8 * |before|
    requires after == before[bit / 8 := WithBit(before[bit / 8], bit % 8)]
    ensures forall p | 0 <= p < 8 * |before| :: BitAt(after, p) <==> p == bit || BitAt(before, p)
  {
    forall p | 0 <= p < 8 * |before| ensures BitAt(after, p) <==> p == bit || BitAt(before, p) {
      if p / 8 == bit / 8 {
        RaiseBit(before[bit / 8], bit % 8, p % 8);
      }
    }
  }

  /** A filter may contain a key when every probed bit is set; the last byte is the number of probes. */
  predicate MayContain(filter: bytes, key: bytes)
    requires |filter| > 1
  {
    var bits := filter[..|filter| - 1];
    forall i: nat | i < filter[|filter| - 1] :: BitAt(bits, ProbeBit(Hash(key), i, 8 * |bits|))
  }

  predicate ValidFilter(filter: bytes) {
    |filter| > 1 && 1 <= filter[|filter| - 1] <= MAXIMUM_PROBES && 8 * (|filter| - 1) <= U64_MAX
  }

  method MayContainKey(filter: bytes, key: bytes) returns (r: bool)
    requires ValidFilter(filter)
    ensures r == MayContain(filter, key)
  {
    var bits := filter[..|filter| - 1];
    var hash := StableHash(key);
    for i := 0 to filter[|filter| - 1]
      invariant forall j: nat | j < i :: BitAt(bits, ProbeBit(hash, j, 8 * |bits|))
    {
      if !BitAt(bits, ProbeBit(hash, i, 8 * |bits|)) {
        return false;
      }
    }
    return true;
  }

  function ByteCount(requested: nat): nat {
    ((if requested > MINIMUM_BITS then requested else MINIMUM_BITS) + 7) / 8
  }

  function ProbeCount(bitsPerKey: nat): (r: nat)
    ensures 1 <= r <= MAXIMUM_PROBES
  {
    var n := bitsPerKey * 69 / 100;
    if n < 1 then 1 else if n > MAXIMUM_PROBES then MAXIMUM_PROBES else n
  }

  /** The bits set are exactly those probed by some key. */
  ghost predicate Covers(bits: bytes, probes: nat, keys: seq<bytes>) {
    |bits| > 0 &&
    forall p | 0 <= p < 8 * |bits| :: BitAt(bits, p) <==> exists k | k in keys :: Probed(k, 8 * |bits|, probes, p)
  }

  /** Builds a filter that contains every key: an absent answer is never wrong. */
  method FromKeys(keys: seq<bytes>, bitsPerKey: byte) returns (r: Result<bytes>)
    ensures r.Err? <==> bitsPerKey == 0 || |keys| * bitsPerKey > U64_MAX - 7
    ensures r.Ok? ==> ValidFilter(r.value) && forall k | k in keys :: MayContain(r.value, k)
    ensures r.Ok? ==> Covers(r.value[..|r.value| - 1], r.value[|r.value| - 1], keys)
  {
    if bitsPerKey == 0 || |keys| * bitsPerKey > U64_MAX - 7 {
      return Err;
    }
    var n := ByteCount(|keys| * bitsPerKey);
    var probes := ProbeCount(bitsPerKey);
    var bits := new byte[n](_ => 0);
    ghost var done: seq<bytes> := [];
    forall p | 0 <= p < 8 * n ensures !BitAt(bits[..], p) {
      NoBits(p % 8);
    }
    for i := 0 to |keys|
      invariant Covers(bits[..], probes, keys[..i])
    {
      ghost var before := bits[..];
      SetKeyBits(bits, 8 * n, probes, keys[i]);
      CoversMore(before, bits[..], probes, keys[..i], keys[i]);
      assert keys[..i + 1] == keys[..i] + [keys[i]];
    }
    assert keys[..|keys|] == keys;
    var filter := bits[..] + [probes];
    assert filter[..|filter| - 1] == bits[..];
    forall k | k in keys ensures MayContain(filter, k) {
      CoveredKey(bits[..], probes, keys, k);
    }
    return Ok(filter);
  }

  lemma CoversMore(before: bytes, after: bytes, probes: nat, keys: seq<bytes>, key: bytes)
    requires |before| == |after| && Covers(before, probes, keys)
    requires forall p | 0 <= p < 8 * |after| ::
               BitAt(after, p) <==> BitAt(before, p) || Probed(key, 8 * |after|, probes, p)
    ensures Covers(after, probes, keys + [key])
  {
    var all := keys + [key];
    forall p | 0 <= p < 8 * |after|
      ensures BitAt(after, p) <==> exists k | k in all :: Probed(k, 8 * |after|, probes, p)
    {
      if k :| k in all && Probed(k, 8 * |after|, probes, p) {
        assert k in keys || k == key;
      }
      if k :| k in keys && Probed(k, 8 * |after|, probes, p) {
        assert k in all;
      }
      assert key in all;
    }
  }

  /** No false negatives. */
  lemma CoveredKey(bits: bytes, probes: byte, keys: seq<bytes>, key: bytes)
    requires Covers(bits, probes, keys) && key in keys
    ensures MayContain(bits + [probes], key)
  {
    var filter := bits + [probes];
    assert filter[..|filter| - 1] == bits;
    forall i: nat | i < probes ensures BitAt(bits, ProbeBit(Hash(key), i, 8 * |bits|)) {
      assert Probed(key, 8 * |bits|, probes, ProbeBit(Hash(key), i, 8 * |bits|));
    }
  }
}
