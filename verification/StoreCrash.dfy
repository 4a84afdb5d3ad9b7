// Readers, unlinking, crashes and recovery keep the invariant.
module StoreCrash {
  import opened Keys
  import opened Records
  import opened Layers
  import opened Leveled
  import opened Store
  import opened StoreInv
  import opened StoreFrames
  import opened StoreFlush

  lemma OpenReaderKeepsInv(s: State)
    requires Inv(s) && Idle(s)
    ensures Inv(OpenReader(s))
  {
    hide Less, WellOrdered, CrashOk;
    var s' := OpenReader(s);
    var d, r, r' := s.disk, s.ram.value, s'.ram.value;
    var rd := Reader(Upper(r), r.tables, r.gen, s.spec.now);
    LogsArePlain(s.cfg, d);
    ManTablesBacked(s.cfg, d);
    forall t | t in r.tables ensures Sound(t.recs, r.gen, |d.blobs[r.gen].bytes|) {
      SoundMonotone(t.recs, r.gen, d.blobs[r.gen].synced, |d.blobs[r.gen].bytes|);
    }
    forall x | x in r'.readers ensures ReaderOk(x, r', d) {
      assert x == rd || ReaderOk(x, r, d);
    }
  }

  lemma CloseReaderKeepsInv(s: State, i: nat)
    requires Inv(s) && CanCloseReader(s, i)
    ensures Inv(CloseReader(s, i))
  {
    hide Less, WellOrdered, CrashOk, DiskOk, Live, ReaderOk;
    var s' := CloseReader(s, i);
    var d, r, r' := s.disk, s.ram.value, s'.ram.value;
    forall x | x in r'.readers ensures ReaderOk(x, r', d) {
      assert x in r.readers;
      ReaderFrame(x, r, r', d);
    }
  }

  lemma UnlinkDisk(s: State, id: nat)
    requires Inv(s) && CanUnlink(s, id)
    ensures DiskOk(s.cfg, Unlink(s, id).disk) && CrashOk(Unlink(s, id).disk, s.spec)
    ensures ManTables(Unlink(s, id).disk) == ManTables(s.disk)
  {
    hide Less, WellOrdered, Admissible, Live, AllSound, MemOk, FlushOk, MergeOk, GcOk, GensOk, ReadersOk;
    var d, d' := s.disk, Unlink(s, id).disk;
    ManTablesFrame(s.cfg, d, d');
    forall n: nat, k: Key | d'.wal.synced <= n <= |d'.wal.recs| ensures Admissible(s.spec, k, CrashView(d', n, k)) {
      assert CrashView(d', n, k) == CrashView(d, n, k);
    }
  }

  lemma UnlinkReaders(s: State, id: nat)
    requires Inv(s) && CanUnlink(s, id)
    ensures ReadersOk(Unlink(s, id).ram.value, Unlink(s, id).disk)
  {
    hide Less, DiskOk, CrashOk, Live, AllSound, MemOk, FlushOk, MergeOk, GcOk, GensOk;
    var d, d', r, r' := s.disk, Unlink(s, id).disk, s.ram.value, Unlink(s, id).ram.value;
    forall rd | rd in r'.readers ensures ReaderOk(rd, r', d') {
      assert ReaderOk(rd, r, d);
      forall t | t in rd.tables ensures t.id != id {
        assert t.id in Ids(rd.tables);
      }
    }
  }

  lemma UnlinkKeepsInv(s: State, id: nat)
    requires Inv(s) && CanUnlink(s, id)
    ensures Inv(Unlink(s, id))
  {
    hide Less, DiskOk, CrashOk, Live, AllSound, ReadersOk, ManTables, Sound, FlushedFrom, View, Resolve;
    UnlinkDisk(s, id);
    UnlinkReaders(s, id);
  }

  // Removing logs that no listed table points into keeps the disk sound.
  lemma FewerLogsKeepDisk(cfg: Config, d: Disk, blobs: map<nat, Blob>, sp: Spec)
    requires DiskOk(cfg, d) && CrashOk(d, sp)
    requires d.man.gen in blobs && BlobsOk(blobs)
    requires blobs[d.man.gen].synced == d.blobs[d.man.gen].synced
    requires blobs[d.man.gen].bytes <= d.blobs[d.man.gen].bytes
    ensures DiskOk(cfg, d.(blobs := blobs)) && CrashOk(d.(blobs := blobs), sp)
  {
    hide Less, WellOrdered, Admissible;
    var d' := d.(blobs := blobs);
    var limit := blobs[d.man.gen].synced;
    assert LogsAgree(LogsOf(d), LogsOf(d'), d.man.gen, limit);
    LogsArePlain(cfg, d);
    forall n: nat, k: Key | d'.wal.synced <= n <= |d'.wal.recs| ensures Admissible(sp, k, CrashView(d', n, k)) {
      PlainReplay(SealedRecs(d) + d.wal.recs[..n]);
      ViewAgrees(ToMap(SealedRecs(d) + d.wal.recs[..n]), ManTables(d), LogsOf(d), LogsOf(d'), d.man.gen, limit, k);
      assert CrashView(d', n, k) == CrashView(d, n, k);
    }
  }

  lemma UnlinkLogKeepsInv(s: State, g: nat)
    requires Inv(s) && CanUnlinkLog(s, g)
    ensures Inv(UnlinkLog(s, g))
  {
    hide Less, WellOrdered, CrashOk, MergeOk, ReaderOk;
    var s' := UnlinkLog(s, g);
    var d, d', r, r' := s.disk, s'.disk, s.ram.value, s'.ram.value;
    FewerLogsKeepDisk(s.cfg, d, d'.blobs, s.spec);
    LogsArePlain(s.cfg, d);
    var l, l' := LogsOf(d), LogsOf(d');
    assert LogsAgree(l, l', r.gen, d.blobs[r.gen].synced);
    ReadAgrees(r.tables, l, l', r.gen, d.blobs[r.gen].synced);
    assert Live(Upper(r'), r'.tables, l', s.spec.now) by {
      UpperIsPlain(s.cfg, r, d);
      forall k ensures View(Upper(r), r.tables, l', k) == AnswerOf(s.spec.now, k) {
        assert View(Upper(r), r.tables, l, k) == AnswerOf(s.spec.now, k);
      }
    }
    UnlinkLogJobs(s, g);
    UnlinkLogFlush(s, g);
    UnlinkLogReaders(s, g);
  }

  lemma UpperIsPlain(cfg: Config, r: Ram, d: Disk)
    requires DiskOk(cfg, d) && MemOk(r, d.wal.recs, d.sealed, LogsOf(d))
    ensures PlainMap(Upper(r))
  {
    hide WellOrdered, DistinctIds, AllSound, IdsBelow, Absorbed;
    LogsArePlain(cfg, d);
  }

  lemma UnlinkLogFlush(s: State, g: nat)
    requires Inv(s) && CanUnlinkLog(s, g)
    ensures var s' := UnlinkLog(s, g);
            FlushOk(s'.ram.value.flush, FlushSource(s'.ram.value), s'.ram.value.gen, s'.disk)
  {
    hide Less, WellOrdered, CrashOk, IdsOk, MergeOk, ReadersOk, Live, MemOk, GcOk, View;
    var d, d', r := s.disk, UnlinkLog(s, g).disk, s.ram.value;
    var l, l' := LogsOf(d), LogsOf(d');
    if r.flush.Some? {
      forall k | k in FlushSource(r) ensures Resolve(r.flush.value.recs[k], l') == Resolve(r.flush.value.recs[k], l) {
        ResolveAgrees(r.flush.value.recs[k], l, l', r.gen, |d.blobs[r.gen].bytes|);
      }
      SourceIsPlain(s.cfg, r, d);
    }
  }

  lemma UnlinkLogJobs(s: State, g: nat)
    requires Inv(s) && CanUnlinkLog(s, g)
    ensures var s' := UnlinkLog(s, g);
            && MemOk(s'.ram.value, s'.disk.wal.recs, s'.disk.sealed, LogsOf(s'.disk))
            && GcOk(s'.ram.value, s'.disk)
  {
    hide Less, WellOrdered, CrashOk, IdsOk, MergeOk, ReadersOk, Live, FlushOk;
    var s' := UnlinkLog(s, g);
    var d, d', r := s.disk, s'.disk, s.ram.value;
    var l, l' := LogsOf(d), LogsOf(d');
    LogsArePlain(s.cfg, d);
    ReadAgrees(r.tables, l, l', r.gen, d.blobs[r.gen].synced);
    if r.gc.Some? {
      forall k ensures View(r.gc.value.recs, [], l', k) == Read(r.tables, l', k) {
        assert View(r.gc.value.recs, [], l, k) == Read(r.tables, l, k);
        if k in r.gc.value.recs {
          ResolveAgrees(r.gc.value.recs[k], l, l', r.gen + 1, |d.blobs[r.gen + 1].bytes|);
        }
      }
    }
  }

  lemma UnlinkLogReaders(s: State, g: nat)
    requires Inv(s) && CanUnlinkLog(s, g)
    ensures ReadersOk(UnlinkLog(s, g).ram.value, UnlinkLog(s, g).disk)
  {
    hide Less, WellOrdered, CrashOk, IdsOk, MergeOk, MemOk, FlushOk, GcOk;
    var s' := UnlinkLog(s, g);
    var d, d', r, r' := s.disk, s'.disk, s.ram.value, s'.ram.value;
    forall rd | rd in r'.readers ensures ReaderOk(rd, r', d') {
      assert ReaderOk(rd, r, d);
      forall k ensures View(rd.upper, rd.tables, LogsOf(d'), k) == AnswerOf(rd.want, k) {
        assert View(rd.upper, rd.tables, LogsOf(d), k) == AnswerOf(rd.want, k);
        ViewAgrees(rd.upper, rd.tables, LogsOf(d), LogsOf(d'), rd.gen, |d.blobs[rd.gen].bytes|, k);
      }
    }
  }

  // ----- crash and recovery -----

  lemma CrashKeepsInv(s: State, n: nat, blobs: map<nat, Blob>)
    requires Inv(s) && CanCrash(s, n, blobs)
    ensures Inv(Crash(s, n, blobs))
  {
    hide Less, WellOrdered, Admissible, RamOk;
    var d, d' := s.disk, Crash(s, n, blobs).disk;
    FewerLogsKeepDisk(s.cfg, d, blobs, s.spec);
    var d1 := d.(blobs := blobs);
    forall m: nat, k: Key | d'.wal.synced <= m <= |d'.wal.recs| ensures Admissible(s.spec, k, CrashView(d', m, k)) {
      assert d'.wal.recs[..m] == d1.wal.recs[..m];
      assert CrashView(d', m, k) == CrashView(d1, m, k);
    }
  }

  lemma CleanFileKeepsInv(s: State, id: nat)
    requires Inv(s) && CanCleanFile(s, id)
    ensures Inv(CleanFile(s, id)) && CleanFile(s, id).disk.files.Keys == s.disk.files.Keys - {id}
  {
    hide Less, WellOrdered, Admissible;
    var d, d' := s.disk, CleanFile(s, id).disk;
    forall t | t in ManTables(d) ensures t.id != id {
      var i :| 0 <= i < |ManTables(d)| && ManTables(d)[i] == t;
      assert d.man.tables[i] in d.man.tables;
    }
    ManTablesFrame(s.cfg, d, d');
    forall n: nat, k: Key | d'.wal.synced <= n <= |d'.wal.recs| ensures Admissible(s.spec, k, CrashView(d', n, k)) {
      assert CrashView(d', n, k) == CrashView(d, n, k);
    }
  }

  lemma CleanLogKeepsInv(s: State, g: nat)
    requires Inv(s) && CanCleanLog(s, g)
    ensures Inv(CleanLog(s, g)) && CleanLog(s, g).disk.blobs.Keys == s.disk.blobs.Keys - {g}
  {
    hide Less, WellOrdered, CrashOk;
    FewerLogsKeepDisk(s.cfg, s.disk, CleanLog(s, g).disk.blobs, s.spec);
  }

  // The cleanup of an opening process removes no file the manifest names, and the list
  // it restores is the list last committed.
  lemma OpenKeepsDisk(s: State)
    requires Inv(s) && CanOpen(s)
    ensures DiskOk(s.cfg, Open(s).disk) && CrashOk(Open(s).disk, s.spec)
    ensures ManTables(Open(s).disk) == ManTables(s.disk)
    ensures forall l :: l in s.disk.man.tables ==>
              l.id in Open(s).disk.files && Open(s).disk.files[l.id] == s.disk.files[l.id]
    ensures forall id :: id in Open(s).disk.files <==> exists l :: l in s.disk.man.tables && l.id == id
    ensures Open(s).disk.blobs.Keys == {s.disk.man.gen}
  {
    hide Less, WellOrdered, Admissible, Recovered;
    var d, d' := s.disk, Open(s).disk;
    var live := set l | l in d.man.tables :: l.id;
    forall l | l in d.man.tables ensures l.id in live && l.id in d'.files && d'.files[l.id] == d.files[l.id] {
      assert l.id in live;
    }
    var d1 := d.(files := d'.files);
    forall id | id in d.files && !NoneHas(ManTables(d), id) ensures id in d1.files && d1.files[id] == d.files[id] {
      var t :| t in ManTables(d) && t.id == id;
      var i :| 0 <= i < |ManTables(d)| && ManTables(d)[i] == t;
      assert d.man.tables[i] in d.man.tables;
    }
    ManTablesFrame(s.cfg, d, d1);
    forall n: nat, k: Key | d1.wal.synced <= n <= |d1.wal.recs| ensures Admissible(s.spec, k, CrashView(d1, n, k)) {
      assert CrashView(d1, n, k) == CrashView(d, n, k);
    }
    FewerLogsKeepDisk(s.cfg, d1, d'.blobs, s.spec);
    assert d' == d1.(blobs := d'.blobs);
  }

  // A crash at any point and a reopening restore exactly the list, with its order, levels
  // and contents, and the generation that the process was running with.
  lemma ReopeningRestoresTheList(s: State, n: nat, blobs: map<nat, Blob>)
    requires Inv(s) && Up(s) && CanCrash(s, n, blobs)
    ensures var r, r' := s.ram.value, Open(Crash(s, n, blobs)).ram.value;
            r'.tables == r.tables && r'.gen == r.gen && s.disk.man.nextId == r'.nextId <= r.nextId
  {
    hide Less, WellOrdered, CrashOk, Recovered, Kept, ToMap, Live, MemOk, FlushOk, MergeOk, GcOk, IdsOk, ReadersOk,
         TablesOf;
    var s1 := Crash(s, n, blobs);
    CrashKeepsInv(s, n, blobs);
    OpenKeepsDisk(s1);
  }

  // Cleanup that a crash interrupts is finished by the next opening.
  lemma CleanupResumes(s: State, id: nat, g: nat)
    requires Inv(s)
    ensures CanCleanFile(s, id) ==> Open(CleanFile(s, id)) == Open(s)
    ensures CanCleanLog(s, g) ==> Open(CleanLog(s, g)) == Open(s)
  {
    hide Inv, Recovered, Kept, ToMap;
    if CanCleanFile(s, id) {
      assert Open(CleanFile(s, id)).disk.files == Open(s).disk.files;
    }
    if CanCleanLog(s, g) {
      assert Open(CleanLog(s, g)).disk.blobs == Open(s).disk.blobs;
    }
  }

  lemma RecoveredAnswers(cfg: Config, d: Disk, sp: Spec, k: Key)
    requires DiskOk(cfg, d) && CrashOk(d, sp)
    ensures CrashView(d, |d.wal.recs|, k) == AnswerOf(Recovered(d), k)
    ensures Admissible(sp, k, AnswerOf(Recovered(d), k))
  {
    hide Less, WellOrdered, Admissible;
    var n := |d.wal.recs|;
    assert d.wal.recs[..n] == d.wal.recs;
    assert Admissible(sp, k, CrashView(d, n, k));
    AdmissibleIsNotBroken(sp, k, CrashView(d, n, k));
    LookupOverlay(ManTables(d), k);
  }

  lemma OpenKeepsInv(s: State)
    requires Inv(s) && CanOpen(s)
    ensures Inv(Open(s))
  {
    hide Less, WellOrdered, Admissible, Recovered;
    OpenKeepsDisk(s);
    OpenKeepsCrash(s);
    OpenIsLive(s);
    OpenRam(s);
  }

  // What a crash right after reopening may leave is exactly what the new specification
  // admits: losing the unsynced survivors again, and nothing older.
  lemma ReopenedIsExact(cfg: Config, d: Disk, sp: Spec, k: Key, a: Answer)
    requires DiskOk(cfg, d) && CrashOk(d, sp)
    ensures Admissible(Reopened(d), k, a) <==>
            exists n: nat :: d.wal.synced <= n <= |d.wal.recs| && a == CrashView(d, n, k)
  {
    hide Less, DiskOk, Recovered, CrashView, CrashOk;
    DiskBounds(cfg, d);
    KeptAnswers(cfg, d, sp, k);
    var since := d.wal.recs[d.wal.synced..];
    if a == AnswerOf(Kept(d), k) {
      assert a == CrashView(d, d.wal.synced, k);
    } else if Admissible(Reopened(d), k, a) {
      var i :| 0 <= i < |since| && since[i].key == k && a == Effect(since[i].body);
      CrashViewStep(cfg, d, d.wal.synced + i, k);
      assert a == CrashView(d, d.wal.synced + i + 1, k);
    }
    if n: nat :| d.wal.synced <= n <= |d.wal.recs| && a == CrashView(d, n, k) {
      SurvivorsAdmit(cfg, d, n, k);
    }
  }

  lemma DiskBounds(cfg: Config, d: Disk)
    requires DiskOk(cfg, d)
    ensures d.wal.synced <= |d.wal.recs| && AllPlain(d.wal.recs)
  {
    hide Less, WellOrdered;
  }

  lemma KeptAnswers(cfg: Config, d: Disk, sp: Spec, k: Key)
    requires DiskOk(cfg, d) && CrashOk(d, sp)
    ensures AnswerOf(Kept(d), k) == CrashView(d, d.wal.synced, k)
  {
    hide Less, WellOrdered, Recovered, Admissible, View, ToMap;
    var n := d.wal.synced;
    var cut := d.(wal := d.wal.(recs := d.wal.recs[..n]));
    assert cut.wal.recs[..n] == d.wal.recs[..n];
    forall m: nat, j: Key | cut.wal.synced <= m <= |cut.wal.recs| ensures Admissible(sp, j, CrashView(cut, m, j)) {
      assert Admissible(sp, j, CrashView(d, n, j));
      assert CrashView(cut, m, j) == CrashView(d, n, j);
    }
    RecoveredAnswers(cfg, cut, sp, k);
    assert CrashView(cut, n, k) == CrashView(d, n, k);
  }

  // One more surviving record changes its key to its effect and no other key.
  lemma CrashViewStep(cfg: Config, d: Disk, n: nat, k: Key)
    requires DiskOk(cfg, d) && n < |d.wal.recs|
    ensures CrashView(d, n + 1, k) == if d.wal.recs[n].key == k then Effect(d.wal.recs[n].body) else CrashView(d, n, k)
  {
    hide Less, WellOrdered;
    var a, b := SealedRecs(d) + d.wal.recs[..n], SealedRecs(d) + d.wal.recs[..n + 1];
    assert d.wal.recs[n] in d.wal.recs;
    assert b[..|b| - 1] == a && b[|b| - 1] == d.wal.recs[n];
  }

  lemma {:induction false} SurvivorsAdmit(cfg: Config, d: Disk, n: nat, k: Key)
    requires DiskOk(cfg, d) && d.wal.synced <= n <= |d.wal.recs|
    requires AnswerOf(Kept(d), k) == CrashView(d, d.wal.synced, k)
    ensures Admissible(Reopened(d), k, CrashView(d, n, k))
    decreases n
  {
    hide Less, DiskOk, Recovered, CrashView;
    if n > d.wal.synced {
      SurvivorsAdmit(cfg, d, n - 1, k);
      CrashViewStep(cfg, d, n - 1, k);
      var since := d.wal.recs[d.wal.synced..];
      assert since[n - 1 - d.wal.synced] == d.wal.recs[n - 1];
    }
  }

  // Whatever the new specification admits the old one did.
  lemma ReopenedAllowsLess(cfg: Config, d: Disk, sp: Spec)
    requires DiskOk(cfg, d) && CrashOk(d, sp)
    ensures AllowsLess(Reopened(d), sp)
  {
    hide DiskOk, Reopened, Admissible, CrashView;
    DiskBounds(cfg, d);
    forall k, a | Admissible(Reopened(d), k, a) ensures Admissible(sp, k, a) {
      ReopenedIsExact(cfg, d, sp, k, a);
    }
  }

  lemma OpenKeepsCrash(s: State)
    requires Inv(s) && CanOpen(s)
    ensures CrashOk(Open(s).disk, Open(s).spec)
  {
    hide Less, WellOrdered, Admissible, Recovered, DiskOk, CrashView, Reopened;
    var d' := Open(s).disk;
    OpenKeepsDisk(s);
    forall n: nat, k: Key | d'.wal.synced <= n <= |d'.wal.recs|
      ensures Admissible(Reopened(d'), k, CrashView(d', n, k))
    {
      ReopenedIsExact(s.cfg, d', s.spec, k, CrashView(d', n, k));
    }
  }

  lemma OpenIsLive(s: State)
    requires Inv(s) && CanOpen(s)
    ensures var s' := Open(s); Live(Upper(s'.ram.value), s'.ram.value.tables, LogsOf(s'.disk), s'.spec.now)
  {
    hide Less, WellOrdered, Admissible, Recovered, DiskOk, CrashOk;
    var s' := Open(s);
    var d', r' := s'.disk, s'.ram.value;
    OpenKeepsDisk(s);
    forall k ensures View(Upper(r'), r'.tables, LogsOf(d'), k) == AnswerOf(s'.spec.now, k) {
      RecoveredAnswers(s.cfg, d', s.spec, k);
      assert d'.wal.recs[..|d'.wal.recs|] == d'.wal.recs;
      assert Upper(r') == r'.mem;
    }
  }

  lemma OpenRam(s: State)
    requires Inv(s) && CanOpen(s)
    ensures var s' := Open(s); var r' := s'.ram.value; var d' := s'.disk;
            && MemOk(r', d'.wal.recs, d'.sealed, LogsOf(d'))
            && GcOk(r', d') && IdsOk(s.cfg, r') && GensOk(r', d') && ReadersOk(r', d')
  {
    hide Less, WellOrdered, Admissible, Recovered, DiskOk, CrashOk;
    var s' := Open(s);
    var d', r' := s'.disk, s'.ram.value;
    if d'.sealed == None {
      assert SealedRecs(d') + d'.wal.recs == d'.wal.recs;
    }
  }
}
