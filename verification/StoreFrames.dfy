// Two kinds of disk change leave the invariant alone: logs that grow or become more
// durable, and files under numbers nobody uses yet.
module StoreFrames {
  import opened Keys
  import opened Records
  import opened Layers
  import opened Leveled
  import opened Store
  import opened StoreInv

  ghost predicate BlobsGrow(a: map<nat, Blob>, b: map<nat, Blob>) {
    forall g :: g in a ==> g in b && a[g].bytes <= b[g].bytes && a[g].synced <= b[g].synced
  }

  lemma GrownLogs(a: map<nat, Blob>, b: map<nat, Blob>)
    requires BlobsGrow(a, b)
    ensures LogsGrow(BytesOf(a), BytesOf(b))
  {
  }

  lemma SoundMonotone(recs: map<Key, Body>, gen: nat, limit: nat, limit': nat)
    requires Sound(recs, gen, limit) && limit <= limit'
    ensures Sound(recs, gen, limit')
  {
  }

  // Records within a log's bytes resolve.
  lemma SoundResolves(recs: map<Key, Body>, gen: nat, logs: Logs, k: Key)
    requires gen in logs && Sound(recs, gen, |logs[gen]|) && k in recs
    ensures Resolve(recs[k], logs) != Broken
  {
  }

  lemma AdmissibleIsNotBroken(sp: Spec, k: Key, a: Answer)
    requires Admissible(sp, k, a)
    ensures a != Broken
  {
  }

  lemma GrowthKeepsDisk(cfg: Config, d: Disk, blobs: map<nat, Blob>, sp: Spec)
    requires DiskOk(cfg, d) && CrashOk(d, sp) && BlobsGrow(d.blobs, blobs) && BlobsOk(blobs)
    ensures DiskOk(cfg, d.(blobs := blobs)) && CrashOk(d.(blobs := blobs), sp)
  {
    hide Less, WellOrdered, Admissible;
    var d' := d.(blobs := blobs);
    GrownLogs(d.blobs, blobs);
    forall t | t in ManTables(d) ensures Sound(t.recs, d.man.gen, blobs[d.man.gen].synced) {
      SoundMonotone(t.recs, d.man.gen, d.blobs[d.man.gen].synced, blobs[d.man.gen].synced);
    }
    forall n: nat, k: Key | d'.wal.synced <= n <= |d'.wal.recs| ensures Admissible(sp, k, CrashView(d', n, k)) {
      assert Admissible(sp, k, CrashView(d, n, k));
      AdmissibleIsNotBroken(sp, k, CrashView(d, n, k));
      ViewGrows(ToMap(SealedRecs(d) + d.wal.recs[..n]), ManTables(d), LogsOf(d), LogsOf(d'), k);
    }
  }

  lemma FlushedFromGrows(recs: map<Key, Body>, source: map<Key, Body>, gen: nat, l: Logs, l': Logs)
    requires FlushedFrom(recs, source, l) && LogsGrow(l, l') && gen in l && Sound(recs, gen, |l[gen]|)
    ensures FlushedFrom(recs, source, l')
  {
    forall k | k in source ensures Resolve(recs[k], l') == Resolve(source[k], l') {
      SoundResolves(recs, gen, l, k);
      ResolveGrows(recs[k], l, l');
      ResolveGrows(source[k], l, l');
    }
  }

  lemma AbsorbedGrows(u: map<Key, Body>, tables: seq<Table>, l: Logs, l': Logs)
    requires Absorbed(u, tables, l) && PlainMap(u) && LogsGrow(l, l')
    ensures Absorbed(u, tables, l')
  {
    forall k | k in u ensures Resolve(u[k], l') == Read(tables, l', k) {
      assert Resolve(u[k], l) == Read(tables, l, k);
      ResolveGrows(u[k], l, l');
      ViewGrows(map[], tables, l, l', k);
    }
  }

  lemma LogsArePlain(cfg: Config, d: Disk)
    requires DiskOk(cfg, d)
    ensures PlainMap(ToMap(SealedRecs(d))) && PlainMap(ToMap(d.wal.recs)) && PlainMap(ToMap(SealedRecs(d) + d.wal.recs))
  {
    PlainReplay(SealedRecs(d));
    PlainReplay(d.wal.recs);
    PlainReplay(SealedRecs(d) + d.wal.recs);
  }

  lemma GrowthKeepsReader(rd: Reader, r: Ram, d: Disk, blobs: map<nat, Blob>)
    requires ReaderOk(rd, r, d) && BlobsGrow(d.blobs, blobs)
    ensures ReaderOk(rd, r, d.(blobs := blobs))
  {
    GrownLogs(d.blobs, blobs);
    LiveGrows(rd.upper, rd.tables, LogsOf(d), BytesOf(blobs), rd.want);
    forall t | t in rd.tables ensures Sound(t.recs, rd.gen, |blobs[rd.gen].bytes|) {
      SoundMonotone(t.recs, rd.gen, |d.blobs[rd.gen].bytes|, |blobs[rd.gen].bytes|);
    }
  }

  lemma GrowthKeepsGc(r: Ram, d: Disk, blobs: map<nat, Blob>)
    requires GcOk(r, d) && BlobsOk(d.blobs) && BlobsGrow(d.blobs, blobs)
    ensures GcOk(r, d.(blobs := blobs))
  {
    if r.gc.Some? {
      var job := r.gc.value;
      var l, l' := LogsOf(d), BytesOf(blobs);
      GrownLogs(d.blobs, blobs);
      forall k ensures View(job.recs, [], l', k) == Read(r.tables, l', k) {
        if k in job.recs {
          SoundResolves(job.recs, r.gen + 1, l, k);
        }
        assert View(job.recs, [], l, k) == Read(r.tables, l, k);
        ViewGrows(job.recs, [], l, l', k);
        ViewGrows(map[], r.tables, l, l', k);
      }
    }
  }

  lemma GrowthKeepsMem(cfg: Config, r: Ram, d: Disk, blobs: map<nat, Blob>)
    requires DiskOk(cfg, d) && MemOk(r, d.wal.recs, d.sealed, LogsOf(d)) && BlobsGrow(d.blobs, blobs)
    ensures MemOk(r, d.wal.recs, d.sealed, BytesOf(blobs))
  {
    hide WellOrdered, DistinctIds, AllSound, IdsBelow;
    LogsArePlain(cfg, d);
    GrownLogs(d.blobs, blobs);
    if r.lock.Truncating? {
      AbsorbedGrows(ToMap(SealedRecs(d) + d.wal.recs), r.tables, LogsOf(d), BytesOf(blobs));
    } else if r.lock == Dropping {
      AbsorbedGrows(ToMap(SealedRecs(d)), r.tables, LogsOf(d), BytesOf(blobs));
    }
  }

  // Everything about the memory survives when the logs grow.
  lemma GrowthKeepsRam(cfg: Config, r: Ram, d: Disk, blobs: map<nat, Blob>, now: map<Key, Bytes>)
    requires DiskOk(cfg, d) && RamOk(cfg, r, d, now)
    requires BlobsGrow(d.blobs, blobs) && BlobsOk(blobs) && GensOk(r, d.(blobs := blobs))
    ensures RamOk(cfg, r, d.(blobs := blobs), now)
  {
    hide Less, WellOrdered, MergeOk, IdsOk, MemOk, GcOk, ReaderOk, DistinctIds;
    var d' := d.(blobs := blobs);
    GrownLogs(d.blobs, blobs);
    LiveGrows(Upper(r), r.tables, LogsOf(d), LogsOf(d'), now);
    GrowthKeepsMem(cfg, r, d, blobs);
    GrowthKeepsGc(r, d, blobs);
    forall rd | rd in r.readers ensures ReaderOk(rd, r, d') {
      GrowthKeepsReader(rd, r, d, blobs);
    }
    if r.flush.Some? {
      FlushedFromGrows(r.flush.value.recs, FlushSource(r), r.gen, LogsOf(d), LogsOf(d'));
    }
  }

  // ----- new files -----

  ghost predicate FreeNumber(r: Ram, id: nat) {
    && NoneHas(r.tables, id) && id !in r.garbage
    && (r.flush.Some? && r.flush.value.stage == Built ==> r.flush.value.id != id)
    && (r.gc.Some? && r.gc.value.stage == Built ==> r.gc.value.id != id)
    && (r.merge.Some? && r.merge.value.outs.Some? && r.merge.value.built <= |r.merge.value.outs.value| ==>
          NoneHas(r.merge.value.outs.value[..r.merge.value.built], id))
  }

  lemma NewFileKeepsDisk(cfg: Config, d: Disk, id: nat, recs: map<Key, Body>, sp: Spec)
    requires DiskOk(cfg, d) && CrashOk(d, sp) && NoneHas(ManTables(d), id)
    ensures DiskOk(cfg, d.(files := d.files[id := recs])) && CrashOk(d.(files := d.files[id := recs]), sp)
    ensures ManTables(d.(files := d.files[id := recs])) == ManTables(d)
  {
    hide Less, WellOrdered, Admissible;
    var d' := d.(files := d.files[id := recs]);
    ManTablesFrame(cfg, d, d');
    forall n: nat, k: Key | d'.wal.synced <= n <= |d'.wal.recs| ensures Admissible(sp, k, CrashView(d', n, k)) {
      assert CrashView(d', n, k) == CrashView(d, n, k);
    }
  }

  lemma NewFileKeepsRam(cfg: Config, r: Ram, d: Disk, id: nat, recs: map<Key, Body>, now: map<Key, Bytes>)
    requires DiskOk(cfg, d) && RamOk(cfg, r, d, now) && FreeNumber(r, id)
    ensures d.(files := d.files[id := recs]).man.gen in d.blobs
    ensures RamOk(cfg, r, d.(files := d.files[id := recs]), now)
  {
    hide Less, WellOrdered, IdsOk, MemOk, Live;
    var d' := d.(files := d.files[id := recs]);
    ManTablesFrame(cfg, d, d');
    forall rd | rd in r.readers ensures ReaderOk(rd, r, d') {
      assert ReaderOk(rd, r, d);
      forall t | t in rd.tables ensures t.id != id {
      }
    }
  }
}
