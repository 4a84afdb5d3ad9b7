// Every state of every run within the formats' limits has a directory whose bytes stand
// for its disk, with no torn log.
module Images {
  import opened Keys
  import opened Codec
  import opened Records
  import opened Layers
  import opened BloomFilter
  import opened Directory
  import opened OpenTables
  import opened Store
  import opened StoreInv
  import opened StoreRuns
  import opened StoreValues
  import opened TableReads
  import TableFormat
  import ManifestFile
  import WriteAheadLog

  // A filter that rules nothing out.
  const FULL := Filter(8, 1, [0xff])

  lemma FullHoldsAll(key: Key)
    ensures FULL.Valid() && FULL.Contains(key)
  {
    hide ProbeOf;
    forall i | 0 <= i < FULL.k ensures FULL.Bit(ProbeOf(key, i, FULL.numBits)) {
      AllOnes(ProbeOf(key, i, FULL.numBits));
    }
  }

  lemma AllOnes(j: nat)
    requires j < 8
    ensures BitIn(0xff, j)
  {
    OnesAt(j as bv8);
  }

  lemma OnesAt(j: bv8)
    requires j < 8
    ensures ((0xff as bv8) >> j) & 1 == 1
  {
  }

  // One file that holds the records: a single block.
  ghost function OneBlock(recs: map<Key, Body>): Blocks {
    if recs == map[] then [] else [Listing(recs)]
  }

  ghost function FileFor(recs: map<Key, Body>): Bytes {
    ListingOf(recs);
    TableFormat.FileOf(OneBlock(recs), FULL.Serialize())
  }

  lemma FlattenOne(recs: map<Key, Body>)
    ensures TableFormat.Flatten(OneBlock(recs)) == Listing(recs) && TableFormat.NonEmpty(OneBlock(recs))
  {
    ListingOf(recs);
    if recs != map[] {
      assert [Listing(recs)][1..] == [];
      Nothing(Listing(recs));
    }
  }

  lemma FileForHolds(recs: map<Key, Body>)
    requires TableFormat.AllStorable(Listing(recs)) && Fits64(|FileFor(recs)|)
    ensures FileHolds(FileFor(recs), recs)
  {
    hide ParseFile, Listing, TableFormat.Flatten, TableFormat.FileOf, Ascending, ToMap, TableFormat.Storable, Over,
         Filter.Contains, OneBlock, Filter.Serialize;
    var bs := OneBlock(recs);
    FlattenOne(recs);
    ListingOf(recs);
    FullHoldsAll([]);
    ReopenRestores(bs, FULL);
    BuiltIsOver(bs, FULL);
    forall r | r in Listing(recs) ensures FULL.Contains(r.key) {
      FullHoldsAll(r.key);
    }
    assert Stands(TableFor(bs, FULL), bs, recs);
  }

  // The widths of the manifest's and the tables' fields, and distinct file names.
  ghost predicate WithinLimits(d: Disk, name: nat -> Bytes) {
    && ManifestFile.Fits(DataFor(d.man, name))
    && (forall l, m :: l in d.man.tables && m in d.man.tables && name(l.id) == name(m.id) ==> l.id == m.id)
    && (d.man.gen in d.blobs ==> Fits64(|d.blobs[d.man.gen].bytes|))
    && (forall l :: l in d.man.tables && l.id in d.files ==> Fits64(|FileFor(d.files[l.id])|))
  }

  ghost predicate AllLoggable(recs: seq<Record>) {
    forall r :: r in recs ==> WriteAheadLog.Loggable(r)
  }

  ghost function ImageOf(d: Disk, name: nat -> Bytes): Image
    requires WithinLimits(d, name)
  {
    Image(map l | l in d.man.tables && l.id in d.files :: name(l.id) := FileFor(d.files[l.id]),
          ManifestFile.Encode(DataFor(d.man, name)), WriteAheadLog.EncodeAll(d.wal.recs),
          if d.sealed == None then None else Some(WriteAheadLog.EncodeAll(d.sealed.value)), LogsOf(d))
  }

  lemma ImageRepresents(d: Disk, name: nat -> Bytes)
    requires WithinLimits(d, name) && AllLoggable(d.wal.recs) && AllLoggable(SealedRecs(d))
    requires forall l :: l in d.man.tables ==> l.id in d.files && TableFormat.AllStorable(Listing(d.files[l.id]))
    ensures Represents(ImageOf(d, name), d, name) && WriteAheadLog.Tail(ImageOf(d, name).wal) == []
  {
    hide FileHolds, FileFor, Listing, TableFormat.Storable, WriteAheadLog.Replay, WriteAheadLog.EncodeAll,
         WriteAheadLog.Loggable, ManifestFile.Parse, ManifestFile.Encode, WriteAheadLog.Tail, ManifestFile.EntryFits;
    var data := DataFor(d.man, name);
    var b := ManifestFile.Encode(data);
    assert b[..|b|] == b;
    ManifestFile.ReadsBackOrFails(data, |b|);
    WriteAheadLog.ReplayRoundTrip(d.wal.recs);
    WriteAheadLog.ReplayRoundTrip(SealedRecs(d));
    WholeLogHasNoTail(d.wal.recs);
    forall l | l in d.man.tables
      ensures name(l.id) in ImageOf(d, name).files && FileHolds(ImageOf(d, name).files[name(l.id)], d.files[l.id])
    {
      FileForHolds(d.files[l.id]);
    }
  }

  lemma WholeLogHasNoTail(rs: seq<Record>)
    requires AllLoggable(rs)
    ensures WriteAheadLog.Tail(WriteAheadLog.EncodeAll(rs)) == []
  {
    hide WriteAheadLog.Replay, WriteAheadLog.EncodeAll, WriteAheadLog.Loggable, WriteAheadLog.Tail,
         WriteAheadLog.WholeRecords;
    var b := WriteAheadLog.EncodeAll(rs);
    assert b[..|b|] == b;
    WriteAheadLog.ReplayRoundTrip(rs);
    WriteAheadLog.ReplayTruncated(rs, |b|);
    WriteAheadLog.TornTailExact(rs, |b|);
    assert rs[..|rs|] == rs;
  }

  // ----- along runs -----

  // The fields of every write of the run are below 4 GiB, as put and del demand.
  ghost predicate WritesFit(es: seq<Event>) {
    forall w :: DoWrite(w) in es ==> WriteAheadLog.Loggable(w)
  }

  lemma GenuineIsStorable(es: seq<Event>, recs: map<Key, Body>, gen: nat, limit: nat, logs: Logs)
    requires WritesFit(es) && Sound(recs, gen, limit) && Genuine(es, recs, logs) && Fits32(gen) && Fits64(limit)
    ensures TableFormat.AllStorable(Listing(recs))
  {
    hide Listing, Ascending, ToMap;
    var s := Listing(recs);
    ListingOf(recs);
    forall r | r in s ensures TableFormat.Storable(r) {
      var i :| 0 <= i < |s| && s[i] == r;
      ToMapAt(s, i);
      assert Wrote(es, r.key, Resolve(r.body, logs));
      match Resolve(r.body, logs)
      case Found(v) => assert WriteAheadLog.Loggable(Record(r.key, Inline(v)));
      case Missing => assert WriteAheadLog.Loggable(Record(r.key, Deleted));
    }
  }

  // So every state of such a run whose disk is within the widths of the formats is the disk
  // some directory's bytes stand for, with a log that ends in no torn record.
  lemma RunsHaveImages(cfg: Config, es: seq<Event>, name: nat -> Bytes)
    requires IsRun(Fresh(cfg), es) && WritesFit(es) && WithinLimits(After(Fresh(cfg), es).disk, name)
    ensures var d := After(Fresh(cfg), es).disk;
            Represents(ImageOf(d, name), d, name) && WriteAheadLog.Tail(ImageOf(d, name).wal) == []
  {
    hide Next, Enabled, Inv, Represents, WriteAheadLog.Tail, AllGenuine, FileFor, WriteAheadLog.Loggable, Listing,
         TableFormat.AllStorable, ManifestFile.EntryFits;
    var d := After(Fresh(cfg), es).disk;
    ListedValuesAreSafe(cfg, es);
    RunKeepsValues(cfg, es);
    ManifestIsAlwaysSafe(cfg, es);
    FreshInv(cfg);
    RunKeepsInv(Fresh(cfg), es);
    DiskPointers(After(Fresh(cfg), es));
    forall i | 0 <= i < |d.man.tables| ensures TableFormat.AllStorable(Listing(d.files[d.man.tables[i].id])) {
      assert d.man.tables[i] in d.man.tables;
      var t := ManTables(d)[i];
      assert t in ManTables(d);
      OneIsGenuine(es, ManTables(d), LogsOf(d), t);
      GenuineIsStorable(es, t.recs, d.man.gen, d.blobs[d.man.gen].synced, LogsOf(d));
    }
    ImageRepresents(d, name);
  }

  lemma OneIsGenuine(es: seq<Event>, tables: seq<Table>, logs: Logs, t: Table)
    requires AllGenuine(es, tables, logs) && t in tables
    ensures Genuine(es, t.recs, logs)
  {
  }
}
