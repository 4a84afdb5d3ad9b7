// Value-log garbage collection keeps the invariant at every step, and what it leaves.
module StoreGc {
  import opened Keys
  import opened Records
  import opened Layers
  import opened Leveled
  import opened ValueLog
  import opened Store
  import opened StoreInv
  import opened StoreFrames
  import opened StoreFlush
  import opened StoreMerge

  ghost function Survivors(s: State): map<Key, Body>
    requires Up(s)
  {
    Merged(s.ram.value.tables, true)
  }

  // The next generation's file does not exist before the collection creates it, so the
  // new log starts empty.
  lemma NextGenerationIsNew(s: State)
    requires Inv(s) && Idle(s)
    ensures s.ram.value.gen + 1 !in s.disk.blobs
  {
    hide Less, WellOrdered, CrashOk, MemOk, FlushOk, MergeOk, IdsOk, ReadersOk, Live, DiskOk;
  }

  lemma SurvivorVisible(tables: seq<Table>, k: Key)
    ensures Visible(tables, k) == if k in Merged(tables, true) then Some(Merged(tables, true)[k]) else None
    ensures k in Merged(tables, true) ==> Merged(tables, true)[k] != Deleted
  {
    LookupOverlay(tables, k);
  }

  // The relocated records answer exactly what the tables answered.
  lemma RelocationKeepsReads(tables: seq<Table>, gen: nat, limit: nat, blobs: map<nat, Blob>)
    requires gen in blobs && gen + 1 !in blobs && limit <= |blobs[gen].bytes| && AllSound(tables, gen, limit)
    ensures var (recs, log) := MoveTable(Merged(tables, true), FromLogs(BytesOf(blobs)), gen + 1, []);
            var logs := BytesOf(blobs[gen + 1 := Blob(log, 0)]);
            && recs.Keys == Merged(tables, true).Keys
            && Sound(recs, gen + 1, |log|)
            && (forall k :: k in recs ==> recs[k] != Deleted)
            && (forall k :: View(recs, [], logs, k) == Read(tables, logs, k))
  {
    hide MoveTable, Merged;
    var m := FromLogs(BytesOf(blobs));
    var merged := Merged(tables, true);
    MoveTableSpec(merged, m, gen + 1, []);
    var (recs, log) := MoveTable(merged, m, gen + 1, []);
    var logs := BytesOf(blobs[gen + 1 := Blob(log, 0)]);
    MergedIsSound(tables, true, gen, limit);
    forall k ensures View(recs, [], logs, k) == Read(tables, logs, k) {
      SurvivorVisible(tables, k);
      if k in merged {
        assert MovedBody(merged[k], m, gen + 1, log, recs[k]);
      }
    }
    forall k | k in recs
      ensures recs[k] != Deleted
      ensures recs[k].Separated? ==> recs[k].ptr.gen == gen + 1 && recs[k].ptr.offset + recs[k].ptr.len <= |log|
    {
      SurvivorVisible(tables, k);
      assert MovedBody(merged[k], m, gen + 1, log, recs[k]);
    }
  }

  lemma GcRelocateKeepsInv(s: State)
    requires Inv(s) && CanGcRelocate(s)
    ensures Inv(GcRelocate(s))
  {
    hide Less, WellOrdered, CrashOk, MoveTable, Live, ReaderOk, Merged, Sound;
    var s' := GcRelocate(s);
    var d, d', r, r' := s.disk, s'.disk, s.ram.value, s'.ram.value;
    NextGenerationIsNew(s);
    RelocationKeepsReads(r.tables, r.gen, d.blobs[r.gen].synced, d.blobs);
    assert BlobsGrow(d.blobs, d'.blobs) && BlobsOk(d'.blobs);
    GrowthKeepsDisk(s.cfg, d, d'.blobs, s.spec);
    GrownLogs(d.blobs, d'.blobs);
    LiveGrows(Upper(r), r.tables, LogsOf(d), LogsOf(d'), s.spec.now);
    TablesBelowNext(s);
    forall rd | rd in r.readers ensures ReaderOk(rd, r', d') {
      GrowthKeepsReader(rd, r, d, d'.blobs);
      ReaderFrame(rd, r, r', d');
    }
  }

  lemma GcSyncKeepsInv(s: State)
    requires Inv(s) && CanGcSync(s)
    ensures Inv(GcSync(s))
  {
    hide Less, WellOrdered, CrashOk, Live, ReaderOk, Sound, View, Read, Resolve, Backed, FlushedFrom;
    var s' := GcSync(s);
    var d, r := s.disk, s.ram.value;
    GrowthKeepsDisk(s.cfg, d, s'.disk.blobs, s.spec);
    GrowthKeepsRam(s.cfg, r, d, s'.disk.blobs, s.spec.now);
    forall rd | rd in r.readers ensures ReaderOk(rd, s'.ram.value, s'.disk) {
      ReaderFrame(rd, r, s'.ram.value, s'.disk);
    }
  }

  lemma GcBuildKeepsInv(s: State)
    requires Inv(s) && CanGcBuild(s)
    ensures Inv(GcBuild(s))
  {
    hide Less, WellOrdered, CrashOk, Live, ReaderOk, Sound;
    var s' := GcBuild(s);
    var d, r := s.disk, s.ram.value;
    var job := r.gc.value;
    assert FreeNumber(r, job.id);
    NewFileKeepsDisk(s.cfg, d, job.id, job.recs, s.spec);
    NewFileKeepsRam(s.cfg, r, d, job.id, job.recs, s.spec.now);
    forall rd | rd in r.readers ensures ReaderOk(rd, s'.ram.value, s'.disk) {
      ReaderFrame(rd, r, s'.ram.value, s'.disk);
    }
  }

  lemma SingleTableReads(t: Table, logs: Logs, k: Key)
    ensures Read([t], logs, k) == View(t.recs, [], logs, k)
  {
    assert [t][1..] == [];
  }

  lemma GcCommitDisk(s: State)
    requires Inv(s) && CanGcCommit(s)
    ensures DiskOk(s.cfg, GcCommit(s).disk)
    ensures ManTables(GcCommit(s).disk) == GcCommit(s).ram.value.tables
  {
    hide Less, CrashOk, Live, ReadersOk, MemOk, Sound;
    var s' := GcCommit(s);
    var d, r, r' := s.disk, s.ram.value, s'.ram.value;
    ManifestReadsBack(d, r');
  }

  lemma GcCommitReads(s: State)
    requires Inv(s) && CanGcCommit(s)
    ensures SameRead(GcCommit(s).ram.value.tables, LogsOf(s.disk), s.ram.value.tables, LogsOf(s.disk))
  {
    hide Less, WellOrdered, CrashOk, Live, ReadersOk, MemOk, Sound, DiskOk;
    var r, r' := s.ram.value, GcCommit(s).ram.value;
    forall k ensures Read(r'.tables, LogsOf(s.disk), k) == Read(r.tables, LogsOf(s.disk), k) {
      SingleTableReads(r'.tables[0], LogsOf(s.disk), k);
      assert View(r.gc.value.recs, [], LogsOf(s.disk), k) == Read(r.tables, LogsOf(s.disk), k);
    }
  }

  lemma GcCommitKeepsInv(s: State)
    requires Inv(s) && CanGcCommit(s)
    ensures Inv(GcCommit(s))
  {
    hide Less, WellOrdered, Admissible, Sound, DiskOk;
    var s' := GcCommit(s);
    var d, d', r, r' := s.disk, s'.disk, s.ram.value, s'.ram.value;
    GcCommitDisk(s);
    GcCommitReads(s);
    TablesBelowNext(s);
    forall n: nat, k: Key | d'.wal.synced <= n <= |d'.wal.recs| ensures Admissible(s.spec, k, CrashView(d', n, k)) {
      assert Admissible(s.spec, k, CrashView(d, n, k));
      assert CrashView(d', n, k) == CrashView(d, n, k);
    }
    forall k ensures View(Upper(r'), r'.tables, LogsOf(d'), k) == AnswerOf(s.spec.now, k) {
      assert View(Upper(r), r.tables, LogsOf(d), k) == AnswerOf(s.spec.now, k);
    }
    GcCommitReaders(s);
  }

  lemma GcCommitReaders(s: State)
    requires Inv(s) && CanGcCommit(s)
    ensures ReadersOk(GcCommit(s).ram.value, GcCommit(s).disk)
  {
    hide Less, WellOrdered, CrashOk, Live, MemOk, AllSound, DiskOk;
    var s' := GcCommit(s);
    var d, d', r, r' := s.disk, s'.disk, s.ram.value, s'.ram.value;
    forall rd | rd in r'.readers ensures ReaderOk(rd, r', d') {
      assert ReaderOk(rd, r, d);
      forall t | t in rd.tables ensures t.id in r'.garbage {
        if t.id !in r.garbage {
          var u :| u in r.tables && u.id == t.id;
          assert u.id in Ids(r.tables);
        }
      }
    }
  }

  // The steps of a pass follow one another.
  ghost predicate CollectionRuns(s: State) {
    && CanGcRelocate(s) && CanGcSync(GcRelocate(s)) && CanGcBuild(GcSync(GcRelocate(s)))
    && CanGcCommit(GcBuild(GcSync(GcRelocate(s))))
  }

  ghost function Collected(s: State): State
    requires CollectionRuns(s)
  {
    GcCommit(GcBuild(GcSync(GcRelocate(s))))
  }

  lemma CollectionNeverStops(s: State)
    requires Inv(s) && CanGcRelocate(s)
    ensures CollectionRuns(s) && Inv(Collected(s)) && Collected(s).spec == s.spec
  {
    hide Inv, MoveTable, Merged, ManifestFor, Listing;
    GcRelocateKeepsInv(s);
    GcSyncKeepsInv(GcRelocate(s));
    GcBuildKeepsInv(GcSync(GcRelocate(s)));
    GcCommitKeepsInv(GcBuild(GcSync(GcRelocate(s))));
  }

  ghost predicate OneCompactTable(tables: seq<Table>, blobs: map<nat, Blob>, gen: nat, live: nat) {
    && |tables| == 1 && gen in blobs
    && (forall k :: k in tables[0].recs ==> tables[0].recs[k] != Deleted)
    && Sound(tables[0].recs, gen, blobs[gen].synced)
    && blobs[gen].synced == |blobs[gen].bytes| == live
  }

  // The whole pass: one table, free of tombstones, every pointer in the new generation,
  // and a new log holding exactly one entry of 8 + |key| + |value| bytes per surviving
  // separated record, which are the entries the table's pointers account for, all of it
  // durable; nothing visible changes.
  lemma GcLeavesOneCompactTable(s: State)
    requires Inv(s) && CanGcRelocate(s)
    ensures CollectionRuns(s) && Inv(Collected(s)) && Collected(s).spec == s.spec
    ensures Collected(s).ram.value.gen == s.ram.value.gen + 1
    ensures var live := EntryBytes(Listing(Survivors(s)), FromLogs(LogsOf(s.disk)));
            && OneCompactTable(Collected(s).ram.value.tables, Collected(s).disk.blobs, s.ram.value.gen + 1, live)
            && live == PointedBytes(Listing(Collected(s).ram.value.tables[0].recs))
  {
    hide Less, WellOrdered, CrashOk, MoveTable, Live, ReaderOk, Merged, MemOk, IdsOk, EntryBytes, ManifestFor, Listing,
         PointedBytes;
    CollectionNeverStops(s);
    NextGenerationIsNew(s);
    RelocationKeepsReads(s.ram.value.tables, s.ram.value.gen, s.disk.blobs[s.ram.value.gen].synced, s.disk.blobs);
    MoveTableSpec(Survivors(s), FromLogs(LogsOf(s.disk)), s.ram.value.gen + 1, []);
    SurvivorsAreReadable(s);
    MoveTablePointed(Survivors(s), LogsOf(s.disk), s.ram.value.gen + 1, []);
  }

  lemma SurvivorsAreReadable(s: State)
    requires Inv(s) && Up(s)
    ensures forall k :: k in Survivors(s) && Survivors(s)[k].Separated? ==> InLog(Survivors(s)[k].ptr, LogsOf(s.disk))
  {
    hide Less, WellOrdered, CrashOk, Live, ReadersOk, Merged, MemOk, IdsOk, FlushOk, MergeOk, GcOk;
    MergedIsSound(s.ram.value.tables, true, s.ram.value.gen, s.disk.blobs[s.ram.value.gen].synced);
  }
}
