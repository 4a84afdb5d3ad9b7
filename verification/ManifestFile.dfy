// The bytes of the manifest: magic, next sequence number, value-log generation, and the
// live tables newest first with their levels.
module ManifestFile {
  import opened Keys
  import opened Codec
  import opened Records

  datatype Entry = Entry(name: Bytes, level: int)

  datatype Data = Data(nextSeq: nat, gen: nat, tables: seq<Entry>)

  // No usable manifest; a manifest cut short, which is an error; a manifest.
  datatype ReadResult = Absent | Truncated | Loaded(data: Data)

  const MAGIC: Bytes := [76, 83, 77, 75, 86, 77, 78, 50]

  // Levels are signed 32-bit and stored as their unsigned image.
  function Unsigned(level: int): int {
    if level < 0 then level + 0x1_0000_0000 else level
  }

  function Signed(u: nat): int {
    if u >= 0x8000_0000 then u - 0x1_0000_0000 else u
  }

  predicate EntryFits(e: Entry) {
    Fits32(|e.name|) && -0x8000_0000 <= e.level < 0x8000_0000
  }

  ghost predicate Fits(d: Data) {
    Fits64(d.nextSeq) && Fits32(d.gen) && Fits32(|d.tables|) && forall e :: e in d.tables ==> EntryFits(e)
  }

  function EncodeEntry(e: Entry): Bytes {
    U32(|e.name|) + e.name + Le(if Unsigned(e.level) >= 0 then Unsigned(e.level) else 0, 4)
  }

  function EncodeEntries(es: seq<Entry>): Bytes {
    if es == [] then [] else EncodeEntry(es[0]) + EncodeEntries(es[1..])
  }

  function Encode(d: Data): Bytes {
    MAGIC + U64(d.nextSeq) + U32(d.gen) + U32(|d.tables|) + EncodeEntries(d.tables)
  }

  function ParseEntry(b: Bytes): (r: Option<(Entry, nat)>)
    ensures r.Some? ==> 8 <= r.value.1 <= |b|
  {
    if |b| < 4 then None
    else
      var len := ReadLe(b[..4]);
      if 4 + len + 4 > |b| then None
      else Some((Entry(b[4..4 + len], Signed(ReadLe(b[4 + len..8 + len]))), 8 + len))
  }

  function ParseEntries(b: Bytes, count: nat): Option<seq<Entry>> {
    if count == 0 then Some([])
    else
      match ParseEntry(b)
      case None => None
      case Some((e, n)) =>
        match ParseEntries(b[n..], count - 1)
        case None => None
        case Some(es) => Some([e] + es)
  }

  function Parse(b: Bytes): ReadResult {
    if |b| < 8 then Truncated
    else if b[..8] != MAGIC then Absent
    else if |b| < 24 then Truncated
    else
      match ParseEntries(b[24..], ReadLe(b[20..24]))
      case None => Truncated
      case Some(es) => Loaded(Data(ReadLe(b[8..16]), ReadLe(b[16..20]), es))
  }

  // ----- reading with a moving position -----

  function Prepend(out: seq<Entry>, rest: Option<seq<Entry>>): Option<seq<Entry>> {
    if rest == None then None else Some(out + rest.value)
  }

  method Read(b: Bytes) returns (r: ReadResult)
    ensures r == Parse(b)
  {
    hide ReadLe;
    if |b| < 8 {
      return Truncated;
    }
    if b[..8] != MAGIC {
      return Absent;
    }
    if |b| < 16 || |b| < 20 || |b| < 24 {
      return Truncated;
    }
    var nextSeq, gen, count := ReadLe(b[8..16]), ReadLe(b[16..20]), ReadLe(b[20..24]);
    var tables: seq<Entry>, p, i := [], 24, 0;
    ghost var whole := ParseEntries(b[24..], count);
    assert whole.Some? ==> [] + whole.value == whole.value;
    hide ParseEntry, ParseEntries;
    while i < count
      invariant 0 <= i <= count && 24 <= p <= |b|
      invariant whole == Prepend(tables, ParseEntries(b[p..], count - i))
    {
      EntryAt(b, p);
      EntriesStep(b, p, count - i, tables);
      if p + 4 > |b| {
        return Truncated;
      }
      var len := ReadLe(b[p..p + 4]);
      if p + 4 + len > |b| || p + 4 + len + 4 > |b| {
        return Truncated;
      }
      var e := Entry(b[p + 4..p + 4 + len], Signed(ReadLe(b[p + 4 + len..p + 8 + len])));
      tables := tables + [e];
      p := p + 8 + len;
      i := i + 1;
    }
    NoEntriesLeft(b[p..]);
    Nothing(tables);
    r := Loaded(Data(nextSeq, gen, tables));
  }

  lemma NoEntriesLeft(b: Bytes)
    ensures ParseEntries(b, 0) == Some([])
  {
  }

  // The entry at a position, in terms of the whole file.
  lemma EntryAt(b: Bytes, p: nat)
    requires p <= |b|
    ensures ParseEntry(b[p..]) ==
            if p + 4 > |b| then None
            else
              var len := ReadLe(b[p..p + 4]);
              if p + 8 + len > |b| then None
              else Some((Entry(b[p + 4..p + 4 + len], Signed(ReadLe(b[p + 4 + len..p + 8 + len]))), 8 + len))
  {
    hide ReadLe, Signed;
    if p + 4 <= |b| {
      Shifted(b, p, 0, 4);
      assert b[p..][0..4] == b[p..][..4];
      var len := ReadLe(b[p..p + 4]);
      if p + 8 + len <= |b| {
        Shifted(b, p, 4, 4 + len);
        Shifted(b, p, 4 + len, 8 + len);
      }
    }
  }

  lemma EntriesStep(b: Bytes, p: nat, count: nat, tables: seq<Entry>)
    requires p <= |b| && count > 0
    ensures Prepend(tables, ParseEntries(b[p..], count)) ==
            match ParseEntry(b[p..])
            case None => None
            case Some((e, n)) => Prepend(tables + [e], ParseEntries(b[p..][n..], count - 1))
    ensures ParseEntry(b[p..]).Some? ==>
              var n := ParseEntry(b[p..]).value.1; p + n <= |b| && b[p..][n..] == b[p + n..]
  {
    hide ParseEntry;
    var first := ParseEntry(b[p..]);
    if first.Some? {
      var rest := ParseEntries(b[p..][first.value.1..], count - 1);
      if rest.Some? {
        Assoc(tables, [first.value.0], rest.value);
      }
    }
  }

  // ----- round trip and truncation -----

  lemma ParseEntryEncoded(e: Entry, rest: Bytes)
    requires EntryFits(e)
    ensures ParseEntry(EncodeEntry(e) + rest) == Some((e, |EncodeEntry(e)|))
  {
    hide ReadLe, U32, Le;
    var c, len := EncodeEntry(e), |e.name|;
    var b := c + rest;
    U32RoundTrip(len);
    U32RoundTrip(Unsigned(e.level));
    assert c == U32(len) + e.name + U32(Unsigned(e.level)) by {
      LevelBytes(e);
    }
    assert c[..4] == U32(len) && c[4..4 + len] == e.name && c[4 + len..8 + len] == U32(Unsigned(e.level));
    assert b[..4] == c[..4] && b[4..4 + len] == c[4..4 + len] && b[4 + len..8 + len] == c[4 + len..8 + len];
  }

  lemma LevelBytes(e: Entry)
    requires EntryFits(e)
    ensures EncodeEntry(e) == U32(|e.name|) + e.name + U32(Unsigned(e.level))
  {
    hide Le;
  }

  lemma ParsedEntry(b: Bytes)
    requires ParseEntry(b).Some?
    ensures var (e, n) := ParseEntry(b).value; EntryFits(e) && b[..n] == EncodeEntry(e)
  {
    hide ReadLe, Le;
    Widths();
    var (e, n) := ParseEntry(b).value;
    var p := 4 + |e.name|;
    ReadLeRoundTrip(b[..4]);
    ReadLeRoundTrip(b[p..p + 4]);
    LevelBytes(e);
    assert Unsigned(e.level) == ReadLe(b[p..p + 4]);
    assert b[..n] == b[..4] + b[4..p] + b[p..p + 4];
  }

  lemma ParseEntryTorn(e: Entry, n: nat)
    requires EntryFits(e) && n < |EncodeEntry(e)|
    ensures ParseEntry(EncodeEntry(e)[..n]) == None
  {
    hide ReadLe, U32, Le;
    var b := EncodeEntry(e)[..n];
    U32RoundTrip(|e.name|);
    if n >= 4 {
      assert EncodeEntry(e)[..4] == U32(|e.name|);
      assert b[..4] == EncodeEntry(e)[..4];
    }
  }

  // Any truncation of the entries that loses something is noticed; losing nothing reads
  // all of them back.
  lemma {:induction false} ParseEntriesEncoded(es: seq<Entry>, n: nat)
    requires (forall e :: e in es ==> EntryFits(e)) && n <= |EncodeEntries(es)|
    ensures ParseEntries(EncodeEntries(es)[..n], |es|) == if n == |EncodeEntries(es)| then Some(es) else None
  {
    hide ParseEntry, EncodeEntry, EntryFits;
    if es != [] {
      var head, all := EncodeEntry(es[0]), EncodeEntries(es);
      var b := all[..n];
      if n < |head| {
        assert b == head[..n];
        ParseEntryTorn(es[0], n);
        EntryNotEmpty(es[0]);
      } else {
        var rest := EncodeEntries(es[1..])[..n - |head|];
        assert b == head + rest;
        ParseEntryEncoded(es[0], rest);
        assert b[|head|..] == rest;
        ParseEntriesEncoded(es[1..], n - |head|);
        assert es == [es[0]] + es[1..];
      }
    }
  }

  lemma EntryNotEmpty(e: Entry)
    ensures |EncodeEntry(e)| >= 8
  {
  }

  // The manifest reads back exactly: order, levels, generation and next number; and no
  // proper truncation of it is taken for a manifest or for its absence.
  lemma ReadsBackOrFails(d: Data, n: nat)
    requires Fits(d) && n <= |Encode(d)|
    ensures Parse(Encode(d)[..n]) == if n == |Encode(d)| then Loaded(d) else Truncated
  {
    hide ReadLe, EncodeEntries, ParseEntries, EntryFits, U32, U64;
    var all, body := Encode(d), EncodeEntries(d.tables);
    var b := all[..n];
    if n >= 8 {
      assert all[..8] == MAGIC;
      assert b[..8] == all[..8];
    }
    if n >= 24 {
      U64RoundTrip(d.nextSeq);
      U32RoundTrip(d.gen);
      U32RoundTrip(|d.tables|);
      assert all[8..16] == U64(d.nextSeq) && all[16..20] == U32(d.gen) && all[20..24] == U32(|d.tables|);
      assert b[8..16] == all[8..16] && b[16..20] == all[16..20] && b[20..24] == all[20..24];
      assert all[24..] == body;
      assert b[24..] == body[..n - 24];
      ParseEntriesEncoded(d.tables, n - 24);
    }
  }

  // ----- every byte string -----

  // The first bytes of a manifest: eight letters, then the next number, the generation
  // and the table count.
  lemma HeaderFields(d: Data)
    requires Fits(d)
    ensures var b := Encode(d);
            && |b| >= 24 && (forall i :: 0 <= i < 8 ==> b[i] == "LSMKVMN2"[i] as int)
            && ReadLe(b[8..16]) == d.nextSeq && ReadLe(b[16..20]) == d.gen && ReadLe(b[20..24]) == |d.tables|
            && b[24..] == EncodeEntries(d.tables)
  {
    hide ReadLe, EncodeEntries, EntryFits, U32, U64;
    var b := Encode(d);
    U64RoundTrip(d.nextSeq);
    U32RoundTrip(d.gen);
    U32RoundTrip(|d.tables|);
    assert b[..8] == MAGIC && b[8..16] == U64(d.nextSeq) && b[16..20] == U32(d.gen) && b[20..24] == U32(|d.tables|);
  }

  // Each table is its name with its length before it and its level after it, in 32 bits.
  lemma EntryFields(e: Entry)
    requires EntryFits(e)
    ensures var b, p := EncodeEntry(e), 4 + |e.name|;
            && |b| == p + 4 && ReadLe(b[..4]) == |e.name| && b[4..p] == e.name
            && ReadLe(b[p..p + 4]) == e.level % 0x1_0000_0000
  {
    hide ReadLe, U32, Le;
    var b, p := EncodeEntry(e), 4 + |e.name|;
    LevelBytes(e);
    U32RoundTrip(|e.name|);
    U32RoundTrip(Unsigned(e.level));
    assert b[..4] == U32(|e.name|) && b[4..p] == e.name && b[p..p + 4] == U32(Unsigned(e.level));
  }

  lemma {:induction false} EntriesParseExactly(b: Bytes, es: seq<Entry>)
    ensures ParseEntries(b, |es|) == Some(es) <==>
            (forall e :: e in es ==> EntryFits(e)) && EncodeEntries(es) <= b
  {
    hide ParseEntry, EncodeEntry, EntryFits;
    if es != [] {
      var head, rest := EncodeEntry(es[0]), EncodeEntries(es[1..]);
      if ParseEntries(b, |es|) == Some(es) {
        var (e, n) := ParseEntry(b).value;
        ParsedEntry(b);
        assert e == es[0] && ParseEntries(b[n..], |es[1..]|) == Some(es[1..]);
        EntriesParseExactly(b[n..], es[1..]);
        assert b == head + b[n..];
        assert forall x :: x in es ==> x == es[0] || x in es[1..];
      }
      if (forall e :: e in es ==> EntryFits(e)) && EncodeEntries(es) <= b {
        var after := b[|head|..];
        assert head + rest == b[..|head + rest|];
        assert b == head + after && rest == after[..|rest|];
        ParseEntryEncoded(es[0], after);
        EntriesParseExactly(after, es[1..]);
        assert es == [es[0]] + es[1..];
      }
    }
  }

  lemma {:induction false} EntriesCount(b: Bytes, count: nat)
    ensures ParseEntries(b, count).Some? ==> |ParseEntries(b, count).value| == count
  {
    hide ParseEntry;
    if count > 0 && ParseEntry(b).Some? {
      EntriesCount(b[ParseEntry(b).value.1..], count - 1);
    }
  }

  // A manifest is read exactly from its own bytes, with anything after them ignored; the
  // file counts as no manifest exactly when eight other bytes stand at its front; all else
  // is an error.
  lemma ParsesExactly(b: Bytes, d: Data)
    ensures Parse(b) == Loaded(d) <==> Fits(d) && Encode(d) <= b
    ensures Parse(b) == Absent <==> |b| >= 8 && exists i :: 0 <= i < 8 && b[i] != "LSMKVMN2"[i] as int
  {
    hide ReadLe, EncodeEntries, ParseEntries, EntryFits, U32, U64;
    if Parse(b) == Loaded(d) {
      LoadedIsEncoded(b, d);
    }
    if Fits(d) && Encode(d) <= b {
      HeaderFields(d);
      var c := Encode(d);
      assert b[..8] == c[..8] && b[8..16] == c[8..16] && b[16..20] == c[16..20] && b[20..24] == c[20..24];
      assert EncodeEntries(d.tables) == b[24..][..|c| - 24];
      EntriesParseExactly(b[24..], d.tables);
      assert c[..8] == MAGIC;
    }
    if |b| >= 8 {
      assert b[..8] == MAGIC <==> forall i :: 0 <= i < 8 ==> b[i] == "LSMKVMN2"[i] as int;
    }
  }

  lemma LoadedIsEncoded(b: Bytes, d: Data)
    requires Parse(b) == Loaded(d)
    ensures Fits(d) && Encode(d) <= b
  {
    hide ReadLe, Le, EncodeEntries, ParseEntries, EntryFits;
    Widths();
    ReadLeRoundTrip(b[8..16]);
    ReadLeRoundTrip(b[16..20]);
    ReadLeRoundTrip(b[20..24]);
    EntriesCount(b[24..], ReadLe(b[20..24]));
    EntriesParseExactly(b[24..], d.tables);
    var c, es := b[24..], EncodeEntries(d.tables);
    assert b == b[..8] + b[8..16] + b[16..20] + b[20..24] + c;
    assert c == es + c[|es|..];
    assert b == Encode(d) + c[|es|..];
  }
}
