// The bytes of a store's directory and the disk they stand for: reading a key from the
// bytes alone, what a crash that cuts the log at any byte leaves, and what each write to
// the directory does to the disk it stands for.
module Directory {
  import opened Keys
  import opened Codec
  import opened Records
  import opened Layers
  import opened TableReads
  import opened OpenTables
  import opened Store
  import opened StoreInv
  import opened ValueLog
  import opened WriteAheadLog
  import BloomFilter
  import Database
  import ManifestFile
  import Memtable
  import StoreCrash
  import TableFormat

  // Table files by name, value logs by generation.
  datatype Image = Image(files: map<Bytes, Bytes>, man: Bytes, wal: Bytes, sealed: Option<Bytes>, logs: map<nat, Bytes>)

  // A manifest's data, given the names of table files.
  function DataFor(man: Manifest, name: nat -> Bytes): ManifestFile.Data {
    ManifestFile.Data(man.nextId, man.gen,
                      seq(|man.tables|, i requires 0 <= i < |man.tables| =>
                        ManifestFile.Entry(name(man.tables[i].id), man.tables[i].level)))
  }

  ghost predicate FileHolds(bytes: Bytes, recs: map<Key, Body>) {
    ParseFile(bytes).Some? && exists bs :: Stands(ParseFile(bytes).value, bs, recs)
  }

  // The bytes of each file the manifest names hold that table; the logs replay to the
  // logged records, torn tails ignored.
  ghost predicate Represents(im: Image, d: Disk, name: nat -> Bytes) {
    && ManifestFile.Parse(im.man) == ManifestFile.Loaded(DataFor(d.man, name))
    && (forall l :: l in d.man.tables ==>
          l.id in d.files && name(l.id) in im.files && FileHolds(im.files[name(l.id)], d.files[l.id]))
    && Replay(im.wal) == d.wal.recs
    && (im.sealed.Some? <==> d.sealed.Some?) && (im.sealed.Some? ==> Replay(im.sealed.value) == d.sealed.value)
    && im.logs == LogsOf(d)
  }

  // ----- reading -----

  // Opens the named files in the manifest's order.
  method OpenFiles(entries: seq<ManifestFile.Entry>, files: map<Bytes, Bytes>, ghost d: Disk, ghost name: nat -> Bytes)
    returns (open: seq<Opened>, ghost blocks: seq<Blocks>)
    requires entries == DataFor(d.man, name).tables
    requires forall l :: l in d.man.tables ==>
               l.id in d.files && name(l.id) in files && FileHolds(files[name(l.id)], d.files[l.id])
    ensures |open| == |entries|
    ensures forall i :: 0 <= i < |entries| ==>
              entries[i].name in files && ParseFile(files[entries[i].name]) == Some(open[i])
    ensures AllStand(open, blocks, ManTables(d))
  {
    hide Stands, ParseFile;
    open, blocks := [], [];
    var i := 0;
    while i < |entries|
      invariant 0 <= i <= |entries| && |open| == |blocks| == i
      invariant forall j :: 0 <= j < i ==>
                  entries[j].name in files && ParseFile(files[entries[j].name]) == Some(open[j])
      invariant forall j :: 0 <= j < i ==> Stands(open[j], blocks[j], ManTables(d)[j].recs)
    {
      ghost var l := d.man.tables[i];
      assert l in d.man.tables && entries[i].name == name(l.id);
      var t := TableReads.Open(files[entries[i].name]);
      ghost var bs :| Stands(t.value, bs, d.files[l.id]);
      open, blocks := open + [t.value], blocks + [bs];
      i := i + 1;
    }
  }

  // From the bytes of a directory to the value of a key, as a process that opens it would
  // answer: manifest, table files, sealed log, active log, filters, index, block, value
  // log. The answer is the recovered map's, and so the effect of a write no older than the
  // last durable one.
  method ReadKey(im: Image, key: Key, useBloom: bool, ghost d: Disk, ghost name: nat -> Bytes, ghost cfg: Config,
                 ghost spec: Spec)
    returns (a: Answer)
    requires Represents(im, d, name) && Inv(State(cfg, d, None, spec))
    ensures a == AnswerOf(Recovered(d), key) && Admissible(spec, key, a)
  {
    hide Stands, ParseFile, Inv, Admissible, Recovered, ToMap, Replay, Memtable.Table.Valid, LogsOf, FileHolds,
         ManTables, AnswerOf;
    var man := ManifestFile.Read(im.man);
    var open, blocks := OpenFiles(man.data.tables, im.files, d, name);
    LogsArePlainRecords(cfg, d, spec);
    var mem := new Memtable.Table();
    Memtable.NothingApplied([], map[]);
    if im.sealed.Some? {
      var sealed := ReplayLog(im.sealed.value);
      Memtable.Apply(mem, sealed);
    }
    var recs := ReplayLog(im.wal);
    Memtable.Apply(mem, recs);
    RecoveredReads(cfg, d, spec, key);
    if mem.Get(key).Some? {
      return Found(mem.Get(key).value);
    }
    if mem.IsTombstone(key) {
      return Missing;
    }
    a := GetFromTables(open, im.logs, key, useBloom, blocks, ManTables(d));
  }

  lemma LogsArePlainRecords(cfg: Config, d: Disk, spec: Spec)
    requires Inv(State(cfg, d, None, spec))
    ensures AllPlain(d.wal.recs) && AllPlain(SealedRecs(d))
  {
    hide CrashOk;
  }

  lemma RecoveredReads(cfg: Config, d: Disk, spec: Spec, k: Key)
    requires Inv(State(cfg, d, None, spec))
    ensures var mem := ToMap(SealedRecs(d)) + ToMap(d.wal.recs);
            View(mem, ManTables(d), LogsOf(d), k) == AnswerOf(Recovered(d), k)
    ensures Admissible(spec, k, AnswerOf(Recovered(d), k))
  {
    hide Recovered, ToMap, View, DiskOk, CrashOk, Admissible;
    StoreCrash.RecoveredAnswers(cfg, d, spec, k);
    assert d.wal.recs[..|d.wal.recs|] == d.wal.recs;
    ToMapAppend(SealedRecs(d), d.wal.recs);
  }

  // ----- sizes -----

  lemma {:induction false} ParsedBlockFits(b: Bytes, r: Record)
    requires TableFormat.ParseAll(b).Some? && r in TableFormat.ParseAll(b).value
    ensures Fit(r.key, r.body)
    decreases |b|
  {
    hide TableFormat.Parse;
    var n := TableFormat.Parse(b).value.1;
    TableFormat.ParsedLengths(b);
    if r != TableFormat.Parse(b).value.0 {
      ParsedBlockFits(b[n..], r);
    }
  }

  lemma {:induction false} InSomeBlock(bs: Blocks, r: Record) returns (i: nat)
    requires r in TableFormat.Flatten(bs)
    ensures i < |bs| && r in bs[i]
  {
    if r in bs[0] {
      i := 0;
    } else {
      i := InSomeBlock(bs[1..], r);
      i := i + 1;
    }
  }

  lemma FileFits(bytes: Bytes, recs: map<Key, Body>)
    requires FileHolds(bytes, recs)
    ensures FitMap(recs)
  {
    hide ParseFile, TableFormat.ParseAll, TableFormat.Flatten, ToMap, Ascending, Fit;
    var t := ParseFile(bytes).value;
    var bs :| Stands(t, bs, recs);
    var all := TableFormat.Flatten(bs);
    forall k | k in recs ensures Fit(k, recs[k]) {
      ToMapKeys(all, k);
      var j :| 0 <= j < |all| && all[j].key == k;
      ToMapAt(all, j);
      var i := InSomeBlock(bs, all[j]);
      assert BlockAt(t.file, t.index[i]) == Some(bs[i]);
      ParsedBlockFits(Region(t.file, t.index[i].offset, t.index[i].length).value, all[j]);
    }
  }

  // Any disk that bytes stand for has the lengths an opening database asks for.
  lemma RepresentedFits(im: Image, d: Disk, name: nat -> Bytes)
    requires Represents(im, d, name)
    ensures Database.DiskFits(d)
  {
    hide Replay, FileHolds, FitMap, ManifestFile.Parse, Loggable;
    forall r | r in SealedRecs(d) + d.wal.recs ensures Fit(r.key, r.body) {
      if r in d.wal.recs {
        LoggedFits(im.wal, r);
      } else {
        LoggedFits(im.sealed.value, r);
      }
    }
    forall l | l in d.man.tables && l.id in d.files ensures FitMap(d.files[l.id]) {
      FileFits(im.files[name(l.id)], d.files[l.id]);
    }
  }

  lemma LoggedFits(b: Bytes, r: Record)
    requires r in Replay(b)
    ensures Fit(r.key, r.body)
  {
    hide Replay;
    ReplayIsLoggable(b, r);
  }

  // ----- a crash at any byte -----

  // A crash that cuts wal.log at byte n and each value log somewhere is a crash of the
  // state machine at some record, provided no synced byte is lost.
  lemma ByteCrashIsRecordCrash(s: State, im: Image, name: nat -> Bytes, n: nat, syncedBytes: nat, blobs: map<nat, Blob>)
    requires Represents(im, s.disk, name) && syncedBytes <= n <= |im.wal|
    requires |Replay(im.wal[..syncedBytes])| == s.disk.wal.synced <= |s.disk.wal.recs|
    requires CanCrash(s, s.disk.wal.synced, blobs)
    ensures var j := |Replay(im.wal[..n])|;
            && CanCrash(s, j, blobs)
            && Represents(im.(wal := im.wal[..n], logs := BytesOf(blobs)), Crash(s, j, blobs).disk, name)
  {
    hide Replay, FileHolds, ManifestFile.Parse;
    CutLogIsPrefix(im.wal, syncedBytes, n);
  }

  // ----- writing -----

  // Logging a record appends it to the disk's log exactly when the bytes do not end in a
  // torn record.
  lemma AppendRepresents(im: Image, d: Disk, name: nat -> Bytes)
    requires Represents(im, d, name)
    ensures (forall w :: Loggable(w) ==>
               Represents(im.(wal := im.wal + Encode(w)), d.(wal := d.wal.(recs := d.wal.recs + [w])), name)) <==>
            Tail(im.wal) == []
  {
    hide Replay, FileHolds, ManifestFile.Parse, Encode, Tail, Loggable;
    AppendAfterReopenExact(im.wal);
    forall w
      ensures Represents(im.(wal := im.wal + Encode(w)), d.(wal := d.wal.(recs := d.wal.recs + [w])), name) <==>
              Replay(im.wal + Encode(w)) == Replay(im.wal) + [w]
    {
    }
  }

  // A table written under a name the manifest does not use yet represents the disk with
  // that file, and the manifest written after it the disk with that manifest.
  lemma FileRepresents(im: Image, d: Disk, name: nat -> Bytes, id: nat, bytes: Bytes, recs: map<Key, Body>)
    requires Represents(im, d, name) && FileHolds(bytes, recs)
    requires forall l :: l in d.man.tables ==> l.id != id && name(l.id) != name(id)
    ensures Represents(im.(files := im.files[name(id) := bytes]), d.(files := d.files[id := recs]), name)
  {
    hide Replay, FileHolds, ManifestFile.Parse;
  }

  lemma ManifestRepresents(im: Image, d: Disk, name: nat -> Bytes, man: Manifest)
    requires Represents(im, d, name) && ManifestFile.Fits(DataFor(man, name))
    requires forall l :: l in man.tables ==>
               l.id in d.files && name(l.id) in im.files && FileHolds(im.files[name(l.id)], d.files[l.id])
    ensures Represents(im.(man := ManifestFile.Encode(DataFor(man, name))), d.(man := man), name)
  {
    hide Replay, FileHolds, ManifestFile.Parse, ManifestFile.Encode;
    var data := DataFor(man, name);
    var b := ManifestFile.Encode(data);
    assert b[..|b|] == b;
    ManifestFile.ReadsBackOrFails(data, |b|);
  }

  // Writing a table's file: the bytes hold its records.
  method WriteFile(recs: seq<Record>, numBits: nat, k: nat) returns (bytes: Option<Bytes>)
    requires Ascending(recs) && numBits + 7 < BloomFilter.TWO64 && Fits32(k)
    requires forall r :: r in recs ==> TableFormat.PointerFits(r.body)
    ensures bytes.Some? <==> TableFormat.AllStorable(recs)
    ensures bytes.Some? && Fits64(|bytes.value|) ==> FileHolds(bytes.value, ToMap(recs))
  {
    hide Stands, ParseFile, Ascending, TableFormat.Storable, ToMap;
    var t;
    ghost var bs;
    bytes, t, bs := WriteTable(recs, numBits, k);
  }
}
