// The per-table Bloom filter: k probes by double hashing into a bit array.
module BloomFilter {
  import opened Keys
  import opened Codec
  import opened Records

  const TWO64: nat := 0x1_0000_0000_0000_0000

  // ----- hashing -----

  function Mix(h: bv64, c: byte): bv64 {
    (h ^ (c as bv64)) * 1099511628211
  }

  function HashFrom(s: Bytes, h: bv64): bv64 {
    if s == [] then h else HashFrom(s[1..], Mix(h, s[0]))
  }

  function Hash(s: Bytes, seed: bv64): bv64 {
    HashFrom(s, 1469598103934665603 ^ seed)
  }

  method Fnv1a(s: Bytes, seed: bv64) returns (h: bv64)
    ensures h == Hash(s, seed)
  {
    hide Mix;
    h := 1469598103934665603 ^ seed;
    var i := 0;
    while i < |s|
      invariant 0 <= i <= |s|
      invariant HashFrom(s[i..], h) == Hash(s, seed)
    {
      assert s[i..][1..] == s[i + 1..];
      h := Mix(h, s[i]);
      i := i + 1;
    }
  }

  function AsNat(h: bv64): nat {
    h as int
  }

  function Odd(h: bv64): bv64 {
    h | 1
  }

  function FirstHash(key: Key): nat {
    AsNat(Hash(key, 0))
  }

  function SecondHash(key: Key): nat {
    AsNat(Odd(Hash(key, 0x9e3779b97f4a7c15)))
  }

  method Hashes(key: Key) returns (h1: nat, h2: nat)
    ensures h1 == FirstHash(key) && h2 == SecondHash(key)
  {
    hide Hash, AsNat, Odd;
    var first := Fnv1a(key, 0);
    var second := Fnv1a(key, 0x9e3779b97f4a7c15);
    h1 := AsNat(first);
    h2 := AsNat(Odd(second));
  }

  // The i-th probe, in wrapping 64-bit arithmetic.
  function Probe(h1: nat, h2: nat, i: nat, numBits: nat): (p: nat)
    requires numBits > 0
    ensures p < numBits
  {
    ((h1 + i * h2) % TWO64) % numBits
  }

  function ProbeOf(key: Key, i: nat, numBits: nat): (p: nat)
    requires numBits > 0
    ensures p < numBits
  {
    Probe(FirstHash(key), SecondHash(key), i, numBits)
  }

  lemma KnownMixes()
    ensures Mix(1469598103934665603, 97) == 4953267810257967366
    ensures Mix(4953267810257967366, 98) == 11217423238573040876
    ensures Odd(Mix(1469598103934665603 ^ 0x9e3779b97f4a7c15, 97)) == 16257581654278566069
  {
  }

  lemma HashOfOne(c: byte, seed: bv64)
    ensures Hash([c], seed) == Mix(1469598103934665603 ^ seed, c)
  {
    hide Mix;
    var h := 1469598103934665603 ^ seed;
    assert HashFrom([c], h) == HashFrom([c][1..], Mix(h, c));
    assert [c][1..] == [];
  }

  lemma HashOfMore(s: Bytes, c: byte, seed: bv64)
    ensures Hash(s + [c], seed) == Mix(Hash(s, seed), c)
  {
    hide Mix;
    HashSnoc(s, c, 1469598103934665603 ^ seed);
  }

  lemma {:induction false} HashSnoc(s: Bytes, c: byte, h: bv64)
    ensures HashFrom(s + [c], h) == Mix(HashFrom(s, h), c)
  {
    hide Mix;
    if s == [] {
      assert s + [c] == [c] && [c][1..] == [];
    } else {
      assert (s + [c])[1..] == s[1..] + [c];
      HashSnoc(s[1..], c, Mix(h, s[0]));
    }
  }

  // The hashes of "a" and "ab" and the first probes of "a" among 100 bits; the second and
  // later ones wrap around.
  lemma KnownHashes()
    ensures Hash([97], 0) == 4953267810257967366 && Hash([97, 98], 0) == 11217423238573040876
    ensures FirstHash([97]) == 4953267810257967366 && SecondHash([97]) == 16257581654278566069
  {
    hide Mix, Hash, Odd;
    KnownMixes();
    HashOfOne(97, 0);
    HashOfMore([97], 98, 0);
    assert [97] + [98] == [97, 98];
    HashOfOne(97, 0x9e3779b97f4a7c15);
    assert 1469598103934665603 as bv64 ^ 0 == 1469598103934665603;
  }

  lemma KnownProbes()
    ensures ProbeOf([97], 0, 100) == 66 && ProbeOf([97], 1, 100) == 19
    ensures ProbeOf([97], 2, 100) == 72 && ProbeOf([97], 3, 100) == 41
  {
    hide FirstHash, SecondHash, Hash, Probe;
    KnownHashes();
    ProbeNumbers();
  }

  lemma ProbeNumbers()
    ensures var h1, h2 := 4953267810257967366, 16257581654278566069;
            && Probe(h1, h2, 0, 100) == 66 && Probe(h1, h2, 1, 100) == 19
            && Probe(h1, h2, 2, 100) == 72 && Probe(h1, h2, 3, 100) == 41
  {
  }

  // ----- the bit array -----

  // The bit array's size, in wrapping 64-bit arithmetic.
  function BytesFor(numBits: nat): nat {
    ((numBits + 7) % TWO64) / 8
  }

  function BitIn(b: bv8, j: nat): bool
    requires j < 8
  {
    (b >> (j as bv8)) & 1 == 1
  }

  function WithBit(b: bv8, j: nat): bv8
    requires j < 8
  {
    b | (1 << (j as bv8))
  }

  // Bit j of a byte is the one of weight 2^j.
  lemma BitWeights(b: bv8, j: nat)
    requires j < 8
    ensures var mask: bv8 := [1, 2, 4, 8, 16, 32, 64, 128][j];
            (BitIn(b, j) <==> b & mask != 0) && WithBit(b, j) == b | mask
  {
    if j == 0 {
    } else if j == 1 {
    } else if j == 2 {
    } else if j == 3 {
    } else if j == 4 {
    } else if j == 5 {
    } else if j == 6 {
    } else {
      assert j == 7;
    }
  }

  lemma OrSetsOneBit(b: bv8, j: bv8, i: bv8)
    requires j < 8 && i < 8
    ensures (((b | (1 << j)) >> i) & 1 == 1) <==> (i == j || (b >> i) & 1 == 1)
  {
  }

  lemma SmallCast(i: nat, j: nat)
    requires i < 8 && j < 8
    ensures (i as bv8) < 8 && (i as bv8 == j as bv8 <==> i == j)
  {
    assert (i as bv8) as int == i && (j as bv8) as int == j;
  }

  lemma WithBitSetsOne(b: bv8, j: nat, i: nat)
    requires j < 8 && i < 8
    ensures BitIn(WithBit(b, j), i) <==> i == j || BitIn(b, i)
  {
    SmallCast(i, j);
    SmallCast(j, i);
    OrSetsOneBit(b, j as bv8, i as bv8);
  }

  datatype Filter = Filter(numBits: nat, k: nat, bits: seq<bv8>) {
    // What construction and deserialization establish.
    predicate Shaped() {
      0 < numBits < TWO64 && 0 < k && Fits32(k) && |bits| == BytesFor(numBits)
    }

    predicate Valid() {
      Shaped() && numBits + 7 < TWO64
    }

    predicate Bit(p: nat)
      requires Valid() && p < numBits
    {
      BitIn(bits[p / 8], p % 8)
    }

    ghost predicate Contains(key: Key)
      requires Valid()
    {
      forall i :: 0 <= i < k ==> Bit(ProbeOf(key, i, numBits))
    }

    // [num_bits:8][k:4][bits]
    function Serialize(): Bytes {
      U64(numBits) + U32(k) + seq(|bits|, i requires 0 <= i < |bits| => bits[i] as int as byte)
    }
  }

  // None stands for the two errors: a short header, a bit array of the wrong size. A
  // stored zero for either number is read as one.
  function Deserialize(data: Bytes): (r: Option<Filter>)
    ensures r.Some? ==> r.value.Shaped()
  {
    if |data| < 12 then None
    else
      var n := ReadLe(data[..8]);
      var k := ReadLe(data[8..12]);
      var numBits := if n == 0 then 1 else n;
      Widths();
      ReadLeRoundTrip(data[..8]);
      ReadLeRoundTrip(data[8..12]);
      if |data| - 12 != BytesFor(numBits) then None
      else Some(Filter(numBits, if k == 0 then 1 else k,
                       seq(|data| - 12, i requires 0 <= i < |data| - 12 => data[12 + i] as bv8)))
  }

  // The bytes that stand for a filter: the bit count in eight, the hash count in four, and
  // a byte for every eight bits, with zero counts standing for one.
  ghost predicate Forms(data: Bytes, f: Filter) {
    && |data| >= 12
    && f.numBits == (if ReadLe(data[..8]) == 0 then 1 else ReadLe(data[..8]))
    && f.k == (if ReadLe(data[8..12]) == 0 then 1 else ReadLe(data[8..12]))
    && |data| == 12 + |f.bits| && |f.bits| == (f.numBits + 7) % 0x1_0000_0000_0000_0000 / 8
    && forall i :: 0 <= i < |f.bits| ==> f.bits[i] == data[12 + i] as bv8
  }

  // A filter is accepted exactly from its bytes.
  lemma DeserializesExactly(data: Bytes, f: Filter)
    ensures Deserialize(data) == Some(f) <==> Forms(data, f)
  {
    hide ReadLe;
    if Forms(data, f) {
      assert f.bits == seq(|data| - 12, i requires 0 <= i < |data| - 12 => data[12 + i] as bv8);
    }
  }

  // Every bit has a byte exactly when the size computation does not wrap.
  lemma BitsInBoundsExactly(f: Filter)
    requires f.Shaped()
    ensures (forall p :: 0 <= p < f.numBits ==> p / 8 < |f.bits|) <==> f.numBits + 7 < TWO64
  {
    if f.numBits + 7 >= TWO64 {
      assert |f.bits| == 0;
      assert !(0 / 8 < |f.bits|);
    }
  }

  // Twelve bytes naming 2^64 - 1 bits are accepted, with no byte for any of them.
  lemma WrappedFilterIsAccepted()
    ensures var data := U64(TWO64 - 1) + U32(1);
            Deserialize(data) == Some(Filter(TWO64 - 1, 1, [])) && !Filter(TWO64 - 1, 1, []).Valid()
  {
    hide U64, U32, ReadLe;
    var data := U64(TWO64 - 1) + U32(1);
    U64RoundTrip(TWO64 - 1);
    U32RoundTrip(1);
    assert data[..8] == U64(TWO64 - 1) && data[8..12] == U32(1);
    assert BytesFor(TWO64 - 1) == 0;
  }

  lemma SerializeRoundTrip(f: Filter)
    requires f.Shaped()
    ensures Deserialize(f.Serialize()) == Some(f)
  {
    hide ReadLe;
    var data := f.Serialize();
    assert data[..8] == U64(f.numBits) && data[8..12] == U32(f.k);
    U64RoundTrip(f.numBits);
    U32RoundTrip(f.k);
    var g := Deserialize(data).value;
    forall i | 0 <= i < |f.bits| ensures g.bits[i] == f.bits[i] {
      ByteCast(f.bits[i]);
    }
    assert g.bits == f.bits;
  }

  lemma ByteCast(b: bv8)
    ensures 0 <= b as int < 256 && (b as int) as bv8 == b
  {
  }

  // ----- the object -----

  class Bloom {
    const numBits: nat
    const k: nat
    const bits: array<bv8>

    ghost predicate Formed()
      reads bits
    {
      0 < numBits < TWO64 && 0 < k && Fits32(k) && bits.Length == BytesFor(numBits)
    }

    // Every bit has its byte.
    ghost predicate Valid()
      reads bits
    {
      Formed() && numBits + 7 < TWO64
    }

    ghost function Value(): (f: Filter)
      reads bits
      requires Formed()
      ensures f.Shaped() && (f.Valid() <==> Valid())
    {
      Filter(numBits, k, bits[..])
    }

    // Zero counts are taken as one. The bit array is too small exactly when its size
    // computation wraps.
    constructor (numBits: nat, k: nat)
      requires numBits < TWO64 && Fits32(k)
      ensures Formed() && fresh(bits) && (Valid() <==> numBits + 7 < TWO64)
      ensures Value() == Filter(if numBits == 0 then 1 else numBits, if k == 0 then 1 else k,
                                seq(BytesFor(if numBits == 0 then 1 else numBits), i => 0 as bv8))
    {
      this.numBits := if numBits == 0 then 1 else numBits;
      this.k := if k == 0 then 1 else k;
      var zeros := new bv8[BytesFor(if numBits == 0 then 1 else numBits)](i => 0);
      this.bits := zeros;
    }

    // The filter a reopened table holds.
    constructor Of(f: Filter)
      requires f.Shaped()
      ensures Formed() && fresh(bits) && Value() == f
    {
      numBits := f.numBits;
      k := f.k;
      var copied := new bv8[|f.bits|](i requires 0 <= i < |f.bits| => f.bits[i]);
      assert copied[..] == f.bits;
      bits := copied;
    }

    method SetBit(p: nat)
      requires Valid() && p < numBits
      modifies bits
      ensures Value().numBits == old(Value().numBits) && Value().k == old(Value().k)
      ensures forall q :: 0 <= q < numBits ==> (Value().Bit(q) <==> q == p || old(Value().Bit(q)))
    {
      ghost var before := bits[..];
      bits[p / 8] := WithBit(bits[p / 8], p % 8);
      forall q | 0 <= q < numBits ensures Value().Bit(q) <==> q == p || BitIn(before[q / 8], q % 8) {
        if q / 8 == p / 8 {
          WithBitSetsOne(before[p / 8], p % 8, q % 8);
        }
      }
    }

    // Sets exactly the probed bits.
    method Add(key: Key)
      requires Valid()
      modifies bits
      ensures Value().numBits == old(Value().numBits) && Value().k == old(Value().k)
      ensures forall q :: 0 <= q < numBits ==>
                (Value().Bit(q) <==> old(Value().Bit(q)) || exists i :: 0 <= i < k && q == ProbeOf(key, i, numBits))
      ensures Value().Contains(key)
      ensures forall x :: old(Value().Contains(x)) ==> Value().Contains(x)
    {
      hide FirstHash, SecondHash, Probe, BitIn;
      var h1, h2 := Hashes(key);
      var i := 0;
      while i < k
        invariant 0 <= i <= k
        invariant forall q :: 0 <= q < numBits ==>
                    (Value().Bit(q) <==> old(Value().Bit(q)) || exists j :: 0 <= j < i && q == ProbeOf(key, j, numBits))
      {
        var p := Probe(h1, h2, i, numBits);
        assert p == ProbeOf(key, i, numBits);
        SetBit(p);
        i := i + 1;
      }
    }

    method Serialize() returns (bytes: Bytes)
      requires Formed()
      ensures bytes == Value().Serialize()
    {
      bytes := U64(numBits) + U32(k) +
        seq(bits.Length, i requires 0 <= i < bits.Length reads bits => bits[i] as int as byte);
      assert bytes == Value().Serialize();
    }

    method MaybeContains(key: Key) returns (maybe: bool)
      requires Valid()
      ensures maybe <==> Value().Contains(key)
    {
      hide FirstHash, SecondHash, Probe, BitIn;
      var h1, h2 := Hashes(key);
      var i := 0;
      while i < k
        invariant 0 <= i <= k
        invariant forall j :: 0 <= j < i ==> Value().Bit(ProbeOf(key, j, numBits))
      {
        var p := Probe(h1, h2, i, numBits);
        assert p == ProbeOf(key, i, numBits);
        if !BitIn(bits[p / 8], p % 8) {
          return false;
        }
        i := i + 1;
      }
      maybe := true;
    }
  }

  // Exactly the bits probed for some of the keys are set.
  ghost predicate Marks(f: Filter, keys: set<Key>)
    requires f.Valid()
  {
    forall q :: 0 <= q < f.numBits ==>
      (f.Bit(q) <==> exists key, i :: key in keys && 0 <= i < f.k && q == ProbeOf(key, i, f.numBits))
  }

  lemma MarksNothing(numBits: nat, k: nat)
    requires 0 < numBits && numBits + 7 < TWO64 && 0 < k && Fits32(k)
    ensures var f := Filter(numBits, k, seq(BytesFor(numBits), i => 0 as bv8)); f.Valid() && Marks(f, {})
  {
    hide ProbeOf;
    forall j | 0 <= j < 8 ensures !BitIn(0, j) {
      BitWeights(0, j);
    }
  }

  lemma MarksOneMore(f: Filter, g: Filter, keys: set<Key>, key: Key)
    requires f.Valid() && g.Valid() && f.numBits == g.numBits && f.k == g.k && Marks(f, keys)
    requires forall q :: 0 <= q < g.numBits ==>
               (g.Bit(q) <==> f.Bit(q) || exists i :: 0 <= i < g.k && q == ProbeOf(key, i, g.numBits))
    ensures Marks(g, keys + {key})
  {
    hide ProbeOf, BitIn;
    forall q | 0 <= q < g.numBits
      ensures g.Bit(q) <==> exists x, i :: x in keys + {key} && 0 <= i < g.k && q == ProbeOf(x, i, g.numBits)
    {
      if f.Bit(q) {
        var x, i :| x in keys && 0 <= i < f.k && q == ProbeOf(x, i, f.numBits);
        assert x in keys + {key};
      }
      if i :| 0 <= i < g.k && q == ProbeOf(key, i, g.numBits) {
        assert key in keys + {key};
      }
    }
  }

  lemma MarkedIsContained(f: Filter, keys: set<Key>, key: Key)
    requires f.Valid() && Marks(f, keys) && key in keys
    ensures f.Contains(key)
  {
    hide ProbeOf, BitIn;
  }

  // No false negatives for any sequence of adds, also across a trip through bytes; and no
  // bit is set that no key probes.
  method FilterOf(keys: seq<Key>, numBits: nat, k: nat) returns (bytes: Bytes, b: Bloom)
    requires numBits + 7 < TWO64 && Fits32(k)
    ensures b.Valid() && bytes == b.Value().Serialize()
    ensures b.numBits == (if numBits == 0 then 1 else numBits) && b.k == (if k == 0 then 1 else k)
    ensures Marks(b.Value(), set key | key in keys)
    ensures Deserialize(bytes) == Some(b.Value())
    ensures forall key :: key in keys ==> b.Value().Contains(key)
  {
    hide ProbeOf, BitIn, Marks, Filter.Contains;
    b := new Bloom(numBits, k);
    MarksNothing(b.numBits, b.k);
    ghost var seen: set<Key> := {};
    var i := 0;
    while i < |keys|
      invariant 0 <= i <= |keys| && b.Valid() && fresh(b.bits)
      invariant seen == set j | 0 <= j < i :: keys[j]
      invariant Marks(b.Value(), seen)
    {
      ghost var before := b.Value();
      b.Add(keys[i]);
      MarksOneMore(before, b.Value(), seen, keys[i]);
      seen := seen + {keys[i]};
      i := i + 1;
    }
    assert seen == set key | key in keys;
    forall key | key in keys ensures b.Value().Contains(key) {
      MarkedIsContained(b.Value(), seen, key);
    }
    bytes := b.Serialize();
    SerializeRoundTrip(b.Value());
  }
}
