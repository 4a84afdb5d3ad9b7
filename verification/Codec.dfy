// Little-endian fixed-width integers, on which every on-disk format rests.
module Codec {
  import opened Keys

  // The low n bytes of v, least significant first.
  function Le(v: nat, n: nat): (b: Bytes)
    ensures |b| == n
  {
    if n == 0 then [] else [v % 256] + Le(v / 256, n - 1)
  }

  function ReadLe(b: Bytes): nat {
    if b == [] then 0 else b[0] + 256 * ReadLe(b[1..])
  }

  function Pow256(n: nat): (p: nat)
    ensures p > 0
  {
    if n == 0 then 1 else 256 * Pow256(n - 1)
  }

  function U32(v: nat): (b: Bytes)
    ensures |b| == 4
  {
    Le(v, 4)
  }

  function U64(v: nat): (b: Bytes)
    ensures |b| == 8
  {
    Le(v, 8)
  }

  predicate Fits32(n: nat) {
    n < 0x1_0000_0000
  }

  predicate Fits64(n: nat) {
    n < 0x1_0000_0000_0000_0000
  }

  // Byte i holds the digit of weight 256^i: least significant first.
  lemma {:induction false} LeDigits(v: nat, n: nat, i: nat)
    requires i < n
    ensures Le(v, n)[i] == (v / Pow256(i)) % 256
  {
    if i > 0 {
      LeDigits(v / 256, n - 1, i - 1);
      DivDiv(v, Pow256(i - 1));
    }
  }

  lemma DivDiv(v: nat, p: nat)
    requires p > 0
    ensures v / 256 / p == v / (256 * p)
  {
    var q, r := v / 256, v % 256;
    var x, y := q / p, q % p;
    assert v == 256 * (p * x + y) + r;
    assert v == (256 * p) * x + (256 * y + r) by {
      Distribute(256, y, 0);
    }
    assert 0 <= 256 * y + r < 256 * p;
    QuotientIs(v, 256 * p, x, 256 * y + r);
  }

  lemma QuotientIs(v: nat, d: nat, q: nat, r: nat)
    requires v == d * q + r && r < d
    ensures v / d == q
  {
    Multiples(d, v / d - q);
    assert d * (v / d - q) == r - v % d;
  }

  lemma Multiples(d: nat, k: int)
    ensures k >= 1 ==> d * k >= d
    ensures k <= -1 ==> d * k + d <= 0
  {
  }

  // A 32-bit field, byte by byte.
  lemma U32Bytes(v: nat)
    ensures U32(v) == [v % 256, v / 256 % 256, v / 65536 % 256, v / 16777216 % 256]
  {
    assert Pow256(1) == 256 && Pow256(2) == 65536 && Pow256(3) == 16777216;
    forall i | 0 <= i < 4 ensures U32(v)[i] == (v / Pow256(i)) % 256 {
      LeDigits(v, 4, i);
    }
  }

  // A record as both the log and the tables frame it: op, key length, key, value length, value.
  ghost predicate Framed(b: Bytes, op: byte, key: Key, value: Bytes) {
    && Fits32(|key|) && Fits32(|value|)
    && b == [op] + U32(|key|) + key + U32(|value|) + value
  }

  // The bytes at the front of b are the frame whose lengths they carry.
  lemma FrameAt(b: Bytes, n: nat)
    requires 9 <= n <= |b|
    requires var klen := ReadLe(b[1..5]); 9 + klen <= n && n == 9 + klen + ReadLe(b[5 + klen..9 + klen])
    ensures var klen := ReadLe(b[1..5]); Framed(b[..n], b[0], b[5..5 + klen], b[9 + klen..n])
  {
    hide Le, ReadLe;
    Widths();
    var klen := ReadLe(b[1..5]);
    ReadLeRoundTrip(b[1..5]);
    ReadLeRoundTrip(b[5 + klen..9 + klen]);
    assert b[..n] == [b[0]] + b[1..5] + b[5..5 + klen] + b[5 + klen..9 + klen] + b[9 + klen..n];
  }

  // Where a frame's fields lie.
  lemma FrameFields(b: Bytes, op: byte, key: Key, value: Bytes)
    requires Framed(b, op, key, value)
    ensures var p := 5 + |key|;
            && |b| == 9 + |key| + |value| && b[0] == op && ReadLe(b[1..5]) == |key| && b[5..p] == key
            && ReadLe(b[p..p + 4]) == |value| && b[p + 4..] == value
  {
    hide U32, ReadLe;
    var p := 5 + |key|;
    U32RoundTrip(|key|);
    U32RoundTrip(|value|);
    assert b[1..5] == U32(|key|) && b[5..p] == key && b[p..p + 4] == U32(|value|) && b[p + 4..] == value;
  }

  // Reading back what was written, for every value that fits the width.
  lemma {:induction false} LeRoundTrip(v: nat, n: nat)
    requires v < Pow256(n)
    ensures ReadLe(Le(v, n)) == v
  {
    if n > 0 {
      assert v / 256 < Pow256(n - 1);
      LeRoundTrip(v / 256, n - 1);
      assert Le(v, n)[1..] == Le(v / 256, n - 1);
    }
  }

  // Every byte string is the encoding of the number it reads as.
  lemma {:induction false} ReadLeRoundTrip(b: Bytes)
    ensures ReadLe(b) < Pow256(|b|)
    ensures Le(ReadLe(b), |b|) == b
  {
    if b != [] {
      ReadLeRoundTrip(b[1..]);
      DivMod(b[0], ReadLe(b[1..]));
      assert b == [b[0]] + b[1..];
    }
  }

  lemma DivMod(x: byte, y: nat)
    ensures (x + 256 * y) % 256 == x && (x + 256 * y) / 256 == y
  {
  }

  lemma Widths()
    ensures Pow256(4) == 0x1_0000_0000 && Pow256(8) == 0x1_0000_0000_0000_0000
  {
    assert Pow256(2) == 65536;
    assert Pow256(4) == 0x1_0000_0000;
    assert Pow256(6) == 0x1_0000_0000_0000;
  }

  lemma U32RoundTrip(v: nat)
    requires Fits32(v)
    ensures |U32(v)| == 4 && ReadLe(U32(v)) == v
  {
    Widths();
    LeRoundTrip(v, 4);
  }

  lemma U64RoundTrip(v: nat)
    requires Fits64(v)
    ensures |U64(v)| == 8 && ReadLe(U64(v)) == v
  {
    Widths();
    LeRoundTrip(v, 8);
  }

  // put_u64_le: eight shifts and masks.
  method PutU64(buf: Bytes, v: nat) returns (out: Bytes)
    ensures out == buf + U64(v)
  {
    out := buf;
    var rest, i := v, 0;
    while i < 8
      invariant 0 <= i <= 8
      invariant out + Le(rest, 8 - i) == buf + U64(v)
    {
      assert Le(rest, 8 - i) == [rest % 256] + Le(rest / 256, 8 - (i + 1));
      out := out + [rest % 256];
      rest := rest / 256;
      i := i + 1;
    }
  }

  // read_u64_le: each byte shifted into place and or-ed in, which for a clear
  // position is addition.
  method ReadU64(b: Bytes) returns (v: nat)
    requires |b| == 8
    ensures v == ReadLe(b)
  {
    v := 0;
    var place: nat, i := 1, 0;
    while i < 8
      invariant 0 <= i <= 8
      invariant v + place * ReadLe(b[i..]) == ReadLe(b)
    {
      ghost var rest := ReadLe(b[i + 1..]);
      assert b[i..][1..] == b[i + 1..];
      assert place * (b[i] + 256 * rest) == place * b[i] + (256 * place) * rest by {
        Distribute(place, b[i], rest);
      }
      v := v + place * b[i];
      place := 256 * place;
      i := i + 1;
    }
    assert b[8..] == [];
  }

  lemma Distribute(p: nat, x: nat, y: nat)
    ensures p * (x + 256 * y) == p * x + (256 * p) * y
  {
  }
}
