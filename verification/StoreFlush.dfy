// The background flush and the synchronous flush keep the invariant at every step.
module StoreFlush {
  import opened Keys
  import opened Records
  import opened Layers
  import opened Leveled
  import opened LeveledCommit
  import opened ValueLog
  import opened Store
  import opened StoreInv
  import opened StoreFrames

  lemma SourceIsPlain(cfg: Config, r: Ram, d: Disk)
    requires DiskOk(cfg, d) && MemOk(r, d.wal.recs, d.sealed, LogsOf(d))
    ensures PlainMap(FlushSource(r))
  {
    hide WellOrdered, DistinctIds, AllSound, IdsBelow, Absorbed;
    LogsArePlain(cfg, d);
  }

  // A memtable's records after separation read the same and point into the log's new part;
  // the values that moved are those of at least the threshold.
  lemma SeparationKeepsReads(source: map<Key, Body>, threshold: nat, gen: nat, blobs: map<nat, Blob>)
    requires PlainMap(source) && gen in blobs
    ensures var (recs, log) := MoveTable(source, BySize(threshold), gen, blobs[gen].bytes);
            && blobs[gen].bytes <= log
            && Sound(recs, gen, |log|)
            && FlushedFrom(recs, source, BytesOf(blobs[gen := blobs[gen].(bytes := log)]))
            && SplitBySize(recs, source, threshold)
            && (forall k :: k in recs && recs[k].Separated? ==> recs[k].ptr.len == |source[k].value|)
  {
    hide MoveTable;
    MoveTableSpec(source, BySize(threshold), gen, blobs[gen].bytes);
    var (recs, log) := MoveTable(source, BySize(threshold), gen, blobs[gen].bytes);
    var logs := BytesOf(blobs[gen := blobs[gen].(bytes := log)]);
    assert logs[gen] == log;
    forall k | k in recs ensures Resolve(recs[k], logs) == Resolve(source[k], logs) {
      assert MovedBody(source[k], BySize(threshold), gen, log, recs[k]);
    }
    forall k | k in recs && recs[k].Separated?
      ensures recs[k].ptr.gen == gen && recs[k].ptr.offset + recs[k].ptr.len <= |log|
    {
      assert MovedBody(source[k], BySize(threshold), gen, log, recs[k]);
      assert Plain(source[k]);
    }
    forall k | k in source
      ensures recs[k].Separated? <==> source[k].Inline? && |source[k].value| >= threshold
      ensures recs[k].Separated? || recs[k] == source[k]
      ensures recs[k].Separated? ==> recs[k].ptr.len == |source[k].value|
    {
      assert MovedBody(source[k], BySize(threshold), gen, log, recs[k]);
      assert Plain(source[k]);
    }
  }

  lemma FlushAppendKeepsInv(s: State)
    requires Inv(s) && CanFlushAppend(s)
    ensures Inv(FlushAppend(s))
  {
    hide Less, WellOrdered, DiskOk, CrashOk, MoveTable, Live, ReaderOk;
    var s' := FlushAppend(s);
    var d, r := s.disk, s.ram.value;
    SourceIsPlain(s.cfg, r, d);
    SeparationKeepsReads(r.sealed.value.entries, s.cfg.threshold, r.gen, d.blobs);
    AppendIsGrowth(s.cfg, s, r.sealed.value.entries, r.sealed.value.id);
    GrowthKeepsDisk(s.cfg, d, s'.disk.blobs, s.spec);
    GrowthKeepsRam(s.cfg, r, d, s'.disk.blobs, s.spec.now);
    forall rd | rd in r.readers ensures ReaderOk(rd, s'.ram.value, s'.disk) {
      ReaderFrame(rd, r, s'.ram.value, s'.disk);
    }
  }

  lemma AppendIsGrowth(cfg: Config, s: State, source: map<Key, Body>, id: nat)
    requires Inv(s) && Up(s) && PlainMap(source) && s.ram.value.gen in s.disk.blobs
    ensures var blobs := AppendedTo(s, source, id).0.blobs;
            BlobsGrow(s.disk.blobs, blobs) && BlobsOk(blobs) && blobs.Keys == s.disk.blobs.Keys
  {
    hide WellOrdered, CrashOk, RamOk, MoveTable;
    SeparationKeepsReads(source, s.cfg.threshold, s.ram.value.gen, s.disk.blobs);
  }

  // A reader depends on the memory only through the current and old generations, the
  // tables and the garbage.
  lemma ReaderFrame(rd: Reader, r: Ram, r': Ram, d: Disk)
    requires ReaderOk(rd, r, d)
    requires r'.gen == r.gen && r'.oldGens == r.oldGens && r'.tables == r.tables && r'.garbage == r.garbage
    ensures ReaderOk(rd, r', d)
  {
  }

  lemma NothingSeparated(recs: map<Key, Body>, gen: nat, limit: nat)
    requires !AnySeparated(recs)
    ensures Sound(recs, gen, limit)
  {
  }

  lemma FlushSyncKeepsInv(s: State)
    requires Inv(s) && CanFlushSync(s)
    ensures Inv(FlushSync(s))
  {
    hide Less, WellOrdered, CrashOk, Live, ReaderOk, AnySeparated, FlushedFrom, Sound, View, Backed;
    var s' := FlushSync(s);
    var d, r := s.disk, s.ram.value;
    if !AnySeparated(r.flush.value.recs) {
      NothingSeparated(r.flush.value.recs, r.gen, s'.disk.blobs[r.gen].synced);
    }
    GrowthKeepsDisk(s.cfg, d, s'.disk.blobs, s.spec);
    GrowthKeepsRam(s.cfg, r, d, s'.disk.blobs, s.spec.now);
    forall rd | rd in r.readers ensures ReaderOk(rd, s'.ram.value, s'.disk) {
      ReaderFrame(rd, r, s'.ram.value, s'.disk);
    }
  }

  lemma FlushBuildKeepsInv(s: State)
    requires Inv(s) && CanFlushBuild(s)
    ensures Inv(FlushBuild(s))
  {
    hide Less, WellOrdered, CrashOk, Live, ReaderOk;
    var s' := FlushBuild(s);
    var d, r := s.disk, s.ram.value;
    var job := r.flush.value;
    assert FreeNumber(r, job.id);
    NewFileKeepsDisk(s.cfg, d, job.id, job.recs, s.spec);
    NewFileKeepsRam(s.cfg, r, d, job.id, job.recs, s.spec.now);
    forall rd | rd in r.readers ensures ReaderOk(rd, s'.ram.value, s'.disk) {
      ReaderFrame(rd, r, s'.ram.value, s'.disk);
    }
  }

  // ----- a flushed table joins the front of the list -----

  lemma PrependKeepsOrder(t: Table, tables: seq<Table>)
    requires WellOrdered(tables) && t.level == 0 && YoungerThanL0(tables, t.id)
    ensures WellOrdered([t] + tables)
  {
    hide Less;
    var all := [t] + tables;
    forall i, j | 0 <= i < j < |all| ensures Precedes(all[i], all[j]) {
      assert all[j] == tables[j - 1];
      assert all[j] in tables;
      if i > 0 {
        assert all[i] == tables[i - 1];
      }
    }
  }

  lemma PrependKeepsPlan(cfg: Config, t: Table, tables: seq<Table>, plan: Plan)
    requires PlanOk(cfg, tables, plan) && t.level == 0
    ensures PlanOk(cfg, [t] + tables, plan)
  {
    hide RunAt, SinkAt;
    match plan
    case Run(run, drop) =>
      var a: nat :| RunAt(tables, run, drop, a);
      PrependShiftsRun(t, tables, run, drop, a);
    case Sink(p) =>
      var c: nat :| SinkAt(tables, p, c);
      PrependShiftsSink(t, tables, p, c);
  }

  lemma PrependShiftsRun(t: Table, tables: seq<Table>, run: seq<Table>, drop: bool, a: nat)
    requires RunAt(tables, run, drop, a)
    ensures RunAt([t] + tables, run, drop, a + 1)
  {
    assert ([t] + tables)[a + 1..a + 1 + |run|] == tables[a..a + |run|];
  }

  lemma PrependShiftsSink(t: Table, tables: seq<Table>, p: LevelPick, c: nat)
    requires SinkAt(tables, p, c) && t.level == 0
    ensures SinkAt([t] + tables, p, c + 1)
  {
    hide IsLevelPick;
    assert ([t] + tables)[..c + 1] == [t] + tables[..c] && ([t] + tables)[c + 1..] == tables[c..];
  }

  lemma PrependKeepsDisk(cfg: Config, r: Ram, d: Disk, t: Table, r': Ram, now: map<Key, Bytes>)
    requires DiskOk(cfg, d) && RamOk(cfg, r, d, now)
    requires t.level == 0 && t.id in d.files && d.files[t.id] == t.recs && Unused(r, t.id)
    requires cfg.leveled ==> YoungerThanL0(r.tables, t.id)
    requires Sound(t.recs, r.gen, d.blobs[r.gen].synced)
    requires r'.tables == [t] + r.tables && r'.gen == r.gen && r'.nextId == r.nextId
    ensures ManTables(d.(man := ManifestFor(r'))) == r'.tables
    ensures DiskOk(cfg, d.(man := ManifestFor(r')))
  {
    hide Less, MemOk, FlushOk, MergeOk, GcOk, IdsOk, ReadersOk, Live, WellOrdered;
    ManTablesBacked(cfg, d);
    ManifestReadsBack(d, r');
    var d' := d.(man := ManifestFor(r'));
    if cfg.leveled {
      PrependKeepsOrder(t, r.tables);
    }
    forall l | l in d'.man.tables ensures l.id in d.files {
      var i :| 0 <= i < |d'.man.tables| && d'.man.tables[i] == l;
      assert r'.tables[i] in r'.tables;
    }
    forall i, j | 0 <= i < j < |r'.tables| ensures r'.tables[i].id != r'.tables[j].id {
      assert r'.tables[j] == r.tables[j - 1];
      assert r.tables[j - 1] in r.tables;
      if i > 0 {
        assert r'.tables[i] == r.tables[i - 1];
      }
    }
  }

  lemma PrependKeepsRest(cfg: Config, r: Ram, d: Disk, t: Table, r': Ram)
    requires MergeOk(cfg, r.tables, r.merge, d.files) && IdsOk(cfg, r) && ReadersOk(r, d) && t.level == 0
    requires r.flush.Some? && t.id == r.flush.value.id && r.gc == None
    requires r' == r.(tables := [t] + r.tables, sealed := None, flush := None, mem := r'.mem, lock := r'.lock)
    ensures MergeOk(cfg, r'.tables, r'.merge, d.files) && IdsOk(cfg, r') && ReadersOk(r', d)
  {
    hide Less, Live, OutsOk, AllSound;
    if r.merge.Some? {
      PrependKeepsPlan(cfg, t, r.tables, r.merge.value.plan);
    }
    assert forall u :: u in r'.tables <==> u == t || u in r.tables;
    forall rd | rd in r'.readers ensures ReaderOk(rd, r', d) {
      assert ReaderOk(rd, r, d);
    }
  }

  lemma FlushCommitViews(s: State)
    requires Inv(s) && CanFlushCommit(s)
    ensures var s' := FlushCommit(s);
            && Live(s'.ram.value.mem, s'.ram.value.tables, LogsOf(s.disk), s.spec.now)
            && Absorbed(ToMap(SealedRecs(s.disk)), s'.ram.value.tables, LogsOf(s.disk))
  {
    hide Less, WellOrdered, CrashOk, ReaderOk, IdsOk, MergeOk, DiskOk;
    var s' := FlushCommit(s);
    var d, r, r' := s.disk, s.ram.value, s'.ram.value;
    var t := r'.tables[0];
    var entries := r.sealed.value.entries;
    LayerIsAbsorbed(entries, t, r.tables, LogsOf(d));
    forall k ensures View(r'.mem, r'.tables, LogsOf(d), k) == AnswerOf(s.spec.now, k) {
      LayerBecomesTable(r.mem, entries, t, r.tables, LogsOf(d), k);
      assert View(Upper(r), r.tables, LogsOf(d), k) == AnswerOf(s.spec.now, k);
    }
  }

  // Between the manifest commit and the removal of wal-flushing.log a crash replays the
  // sealed log over the table made from it.
  lemma FlushCommitCrash(s: State)
    requires Inv(s) && CanFlushCommit(s)
    requires ManTables(FlushCommit(s).disk) == FlushCommit(s).ram.value.tables
    ensures CrashOk(FlushCommit(s).disk, s.spec)
  {
    hide Less, WellOrdered, Admissible, ReaderOk, IdsOk, MergeOk, DiskOk, Live;
    var s' := FlushCommit(s);
    var d, d', r, r' := s.disk, s'.disk, s.ram.value, s'.ram.value;
    var t := r'.tables[0];
    var F := SealedRecs(d);
    forall n: nat, k: Key | d'.wal.synced <= n <= |d'.wal.recs| ensures Admissible(s.spec, k, CrashView(d', n, k)) {
      assert Admissible(s.spec, k, CrashView(d, n, k));
      var top := ToMap(d.wal.recs[..n]);
      ToMapAppend(F, d.wal.recs[..n]);
      LayerBecomesTable(top, ToMap(F), t, r.tables, LogsOf(d), k);
      LayerIsAbsorbed(ToMap(F), t, r.tables, LogsOf(d));
      AbsorbedLayerDrops(top, ToMap(F), r'.tables, LogsOf(d), k);
      assert CrashView(d', n, k) == CrashView(d, n, k);
    }
  }

  lemma FlushCommitKeepsInv(s: State)
    requires Inv(s) && CanFlushCommit(s)
    ensures Inv(FlushCommit(s))
  {
    hide Less, WellOrdered, CrashOk, ReaderOk, Live, Absorbed, DiskOk;
    var s' := FlushCommit(s);
    var d, r, r' := s.disk, s.ram.value, s'.ram.value;
    var t := r'.tables[0];
    PrependKeepsDisk(s.cfg, r, d, t, r', s.spec.now);
    PrependKeepsRest(s.cfg, r, d, t, r');
    FlushCommitViews(s);
    FlushCommitCrash(s);
    assert Upper(r') == r'.mem;
    assert ReadersOk(r', s'.disk) by {
      forall rd | rd in r'.readers ensures ReaderOk(rd, r', s'.disk) {
        assert ReaderOk(rd, r', d);
        ReaderManifestFrame(rd, r', d, s'.disk);
      }
    }
  }

  lemma ReaderManifestFrame(rd: Reader, r: Ram, d: Disk, d': Disk)
    requires ReaderOk(rd, r, d) && d'.files == d.files && d'.blobs == d.blobs
    ensures ReaderOk(rd, r, d')
  {
  }

  lemma DropKeepsInv(s: State)
    requires Inv(s) && CanDrop(s)
    ensures Inv(Drop(s))
  {
    hide Less, WellOrdered, Admissible, ReaderOk, Live;
    var s' := Drop(s);
    var d, d', r := s.disk, s'.disk, s.ram.value;
    forall n: nat, k: Key | d'.wal.synced <= n <= |d'.wal.recs| ensures Admissible(s.spec, k, CrashView(d', n, k)) {
      assert Admissible(s.spec, k, CrashView(d, n, k));
      ToMapAppend(SealedRecs(d), d.wal.recs[..n]);
      AbsorbedLayerDrops(ToMap(d.wal.recs[..n]), ToMap(SealedRecs(d)), r.tables, LogsOf(d), k);
      assert SealedRecs(d') + d.wal.recs[..n] == d.wal.recs[..n];
    }
    forall rd | rd in r.readers ensures ReaderOk(rd, s'.ram.value, d') {
      ReaderManifestFrame(rd, r, d, d');
      ReaderFrame(rd, r, s'.ram.value, d');
    }
  }

  // ----- the synchronous flush -----

  lemma LockedFlushKeepsInv(s: State)
    requires Inv(s) && CanLockedFlush(s)
    ensures Inv(LockedFlush(s))
  {
    hide Less, WellOrdered, DiskOk, CrashOk, MoveTable, Live, ReaderOk, FlushedFrom, Resolve, View;
    var s' := LockedFlush(s);
    var d, r := s.disk, s.ram.value;
    SourceIsPlain(s.cfg, r, d);
    SeparationKeepsReads(r.mem, s.cfg.threshold, r.gen, d.blobs);
    AppendIsGrowth(s.cfg, s, r.mem, r.nextId);
    GrowthKeepsDisk(s.cfg, d, s'.disk.blobs, s.spec);
    GrowthKeepsRam(s.cfg, r, d, s'.disk.blobs, s.spec.now);
    assert IdsBelow(r.tables, r.nextId) by {
      TablesBelowNext(s);
    }
    if d.sealed == None {
      assert SealedRecs(d) + d.wal.recs == d.wal.recs;
    }
    forall rd | rd in r.readers ensures ReaderOk(rd, s'.ram.value, s'.disk) {
      ReaderFrame(rd, r, s'.ram.value, s'.disk);
    }
  }

  lemma TablesBelowNext(s: State)
    requires Inv(s) && Up(s)
    ensures IdsBelow(s.ram.value.tables, s.ram.value.nextId)
  {
    hide Less, WellOrdered, CrashOk, MemOk, FlushOk, MergeOk, GcOk, IdsOk, ReadersOk, Live;
  }

  // The logs the flushed memtable came from.
  function LogsMap(d: Disk): map<Key, Body> {
    ToMap(SealedRecs(d) + d.wal.recs)
  }

  lemma LockedCommitViews(s: State)
    requires Inv(s) && CanLockedCommit(s)
    ensures var s' := LockedCommit(s);
            && FlushedFrom(s.ram.value.flush.value.recs, LogsMap(s.disk), LogsOf(s.disk))
            && Live(map[], s'.ram.value.tables, LogsOf(s.disk), s.spec.now)
            && Absorbed(LogsMap(s.disk), s'.ram.value.tables, LogsOf(s.disk))
  {
    hide Less, WellOrdered, CrashOk, ReaderOk, IdsOk, MergeOk, DiskOk;
    var s' := LockedCommit(s);
    var d, r, r' := s.disk, s.ram.value, s'.ram.value;
    var t := r'.tables[0];
    assert r.mem == LogsMap(d);
    LayerIsAbsorbed(r.mem, t, r.tables, LogsOf(d));
    forall k ensures View(map[], r'.tables, LogsOf(d), k) == AnswerOf(s.spec.now, k) {
      LayerBecomesTable(map[], r.mem, t, r.tables, LogsOf(d), k);
      assert r.mem + map[] == r.mem && Upper(r) == r.mem;
      assert View(Upper(r), r.tables, LogsOf(d), k) == AnswerOf(s.spec.now, k);
    }
  }

  // After the commit and before the truncation a crash replays a prefix of the log over
  // the table made from all of it: each key reads as it would have after losing the same
  // suffix before the commit, or as it did at the commit.
  lemma CrashViewAfterCommit(s: State, n: nat, k: Key)
    requires Inv(s) && CanLockedCommit(s) && n <= |s.disk.wal.recs|
    requires ManTables(LockedCommit(s).disk) == LockedCommit(s).ram.value.tables
    ensures var a := CrashView(LockedCommit(s).disk, n, k);
            a == CrashView(s.disk, n, k) || a == CrashView(s.disk, |s.disk.wal.recs|, k)
  {
    hide Less, WellOrdered, CrashOk, ReaderOk, IdsOk, MergeOk, DiskOk, Live;
    var d, r, r' := s.disk, s.ram.value, LockedCommit(s).ram.value;
    var t := r'.tables[0];
    LockedCommitViews(s);
    assert d.wal.recs[..|d.wal.recs|] == d.wal.recs;
    assert r'.tables[1..] == r.tables;
    var top := ToMap(SealedRecs(d) + d.wal.recs[..n]);
    if k !in top && k !in t.recs {
      assert k !in LogsMap(d);
    }
  }

  lemma LockedCommitCrash(s: State)
    requires Inv(s) && CanLockedCommit(s)
    requires ManTables(LockedCommit(s).disk) == LockedCommit(s).ram.value.tables
    ensures CrashOk(LockedCommit(s).disk, s.spec)
  {
    hide Less, WellOrdered, Admissible, RamOk, DiskOk, LockedCommit, CrashView;
    var d, d' := s.disk, LockedCommit(s).disk;
    assert d'.wal == d.wal by {
      LockedCommitWal(s);
    }
    forall n: nat, k: Key | d'.wal.synced <= n <= |d'.wal.recs| ensures Admissible(s.spec, k, CrashView(d', n, k)) {
      CrashViewAfterCommit(s, n, k);
      assert Admissible(s.spec, k, CrashView(d, n, k));
      assert Admissible(s.spec, k, CrashView(d, |d.wal.recs|, k)) by {
        LogBounds(s);
      }
    }
  }

  lemma LockedCommitWal(s: State)
    requires CanLockedCommit(s)
    ensures LockedCommit(s).disk.wal == s.disk.wal
  {
  }

  lemma LogBounds(s: State)
    requires Inv(s)
    ensures s.disk.wal.synced <= |s.disk.wal.recs|
  {
    hide Less, WellOrdered, CrashOk, RamOk;
  }

  lemma LockedCommitKeepsInv(s: State)
    requires Inv(s) && CanLockedCommit(s)
    ensures Inv(LockedCommit(s))
  {
    hide Less, WellOrdered, CrashOk, ReaderOk, Live, Absorbed, DiskOk;
    var s' := LockedCommit(s);
    var d, r, r' := s.disk, s.ram.value, s'.ram.value;
    var t := r'.tables[0];
    PrependKeepsDisk(s.cfg, r, d, t, r', s.spec.now);
    PrependKeepsRest(s.cfg, r, d, t, r');
    LockedCommitViews(s);
    LockedCommitCrash(s);
    assert Upper(r') == map[];
    forall rd | rd in r'.readers ensures ReaderOk(rd, r', s'.disk) {
      assert ReaderOk(rd, r', d);
      ReaderManifestFrame(rd, r', d, s'.disk);
    }
  }

  // After a synchronous flush whatever the crash leaves recovers exactly the newest map.
  lemma TruncateCrash(s: State)
    requires Inv(s) && CanTruncate(s)
    ensures forall n: nat, k: Key :: n <= |Truncate(s).disk.wal.recs| ==>
              CrashView(Truncate(s).disk, n, k) == AnswerOf(s.spec.now, k)
    ensures CrashOk(Truncate(s).disk, MadeDurable(s.spec))
  {
    hide Less, WellOrdered, CrashOk, ReadersOk, FlushOk, MergeOk, GcOk, IdsOk, ToMap, View;
    var d, d', r := s.disk, Truncate(s).disk, s.ram.value;
    assert Upper(r) == map[] && ManTables(d') == ManTables(d);
    forall n: nat, k: Key | n <= |d'.wal.recs| ensures CrashView(d', n, k) == AnswerOf(s.spec.now, k) {
      assert SealedRecs(d') + d'.wal.recs[..n] == [];
      NothingLogged();
      assert View(Upper(r), r.tables, LogsOf(d), k) == AnswerOf(s.spec.now, k);
    }
    ExactIsSafe(d', s.spec);
  }

  lemma ExactIsSafe(d: Disk, sp: Spec)
    requires forall n: nat, k: Key :: n <= |d.wal.recs| ==> CrashView(d, n, k) == AnswerOf(sp.now, k)
    ensures CrashOk(d, MadeDurable(sp))
  {
    hide CrashView;
  }

  lemma NothingLogged()
    ensures ToMap([]) == map[]
  {
  }

  lemma TruncateKeepsInv(s: State)
    requires Inv(s) && CanTruncate(s)
    ensures Inv(Truncate(s))
  {
    hide Less, WellOrdered, ReaderOk, Live, CrashOk, View, Resolve, Sound;
    var s' := Truncate(s);
    var d, d', r := s.disk, s'.disk, s.ram.value;
    TruncateCrash(s);
    NothingLogged();
    forall rd | rd in r.readers ensures ReaderOk(rd, s'.ram.value, d') {
      ReaderManifestFrame(rd, r, d, d');
      ReaderFrame(rd, r, s'.ram.value, d');
    }
  }
}
