// What every reachable state of the store satisfies, and the lemmas about reads that
// the step proofs share.
module StoreInv {
  import opened Keys
  import opened Records
  import opened Layers
  import opened Leveled
  import opened LeveledCommit
  import opened Store

  // ----- value pointers -----

  // A separated record names generation gen and lies within its first limit bytes.
  ghost predicate Sound(recs: map<Key, Body>, gen: nat, limit: nat) {
    forall k :: k in recs && recs[k].Separated? ==>
      recs[k].ptr.gen == gen && recs[k].ptr.offset + recs[k].ptr.len <= limit
  }

  ghost predicate AllSound(tables: seq<Table>, gen: nat, limit: nat) {
    forall t :: t in tables ==> Sound(t.recs, gen, limit)
  }

  ghost predicate AllPlain(recs: seq<Record>) {
    forall r :: r in recs ==> Plain(r.body)
  }

  ghost predicate PlainMap(m: map<Key, Body>) {
    forall k :: k in m ==> Plain(m[k])
  }

  // ----- files -----

  // The file of every table exists and holds its records.
  ghost predicate Backed(tables: seq<Table>, files: map<nat, map<Key, Body>>) {
    forall t :: t in tables ==> t.id in files && files[t.id] == t.recs
  }

  ghost predicate DistinctIds(tables: seq<Table>) {
    forall i, j :: 0 <= i < j < |tables| ==> tables[i].id != tables[j].id
  }

  ghost predicate NoneHas(tables: seq<Table>, id: nat) {
    forall t :: t in tables ==> t.id != id
  }

  ghost predicate IdsBelow(tables: seq<Table>, bound: nat) {
    forall t :: t in tables ==> t.id < bound
  }

  // ----- the disk -----

  ghost predicate BlobsOk(blobs: map<nat, Blob>) {
    forall g :: g in blobs ==> blobs[g].synced <= |blobs[g].bytes|
  }

  // Every file the manifest names exists, its numbers are below next_seq and distinct,
  // its pointers lie in the durable part of the current value-log generation, and under
  // the leveled strategy its order is well formed.
  ghost predicate DiskOk(cfg: Config, d: Disk) {
    && d.wal.synced <= |d.wal.recs|
    && AllPlain(d.wal.recs) && AllPlain(SealedRecs(d)) && d.sealed != Some([])
    && BlobsOk(d.blobs) && d.man.gen in d.blobs
    && (forall l :: l in d.man.tables ==> l.id in d.files)
    && IdsBelow(ManTables(d), d.man.nextId) && DistinctIds(ManTables(d))
    && AllSound(ManTables(d), d.man.gen, d.blobs[d.man.gen].synced)
    && (cfg.leveled ==> WellOrdered(ManTables(d)))
  }

  // Whatever a crash leaves of the write-ahead log, every key recovers to the effect of
  // some write no older than its last durable one.
  ghost predicate CrashOk(d: Disk, sp: Spec) {
    forall n: nat, k: Key :: d.wal.synced <= n <= |d.wal.recs| ==> Admissible(sp, k, CrashView(d, n, k))
  }

  // Whatever a admits b admits.
  ghost predicate AllowsLess(a: Spec, b: Spec) {
    forall k, x :: Admissible(a, k, x) ==> Admissible(b, k, x)
  }

  // ----- memory -----

  ghost predicate Live(upper: map<Key, Body>, tables: seq<Table>, logs: Logs, now: map<Key, Bytes>) {
    forall k :: View(upper, tables, logs, k) == AnswerOf(now, k)
  }

  // Every record of u is also what the tables below it answer.
  ghost predicate Absorbed(u: map<Key, Body>, tables: seq<Table>, logs: Logs) {
    forall k :: k in u ==> Resolve(u[k], logs) == Read(tables, logs, k)
  }

  ghost predicate SealedMatch(onDisk: Option<seq<Record>>, inRam: Option<Sealed>) {
    match inRam
    case None => onDisk == None
    case Some(m) => onDisk.Some? && m.entries == ToMap(onDisk.value)
  }

  // How the memtables relate to the two logs, at each point of a critical section.
  ghost predicate MemOk(r: Ram, wal: seq<Record>, onDisk: Option<seq<Record>>, logs: Logs) {
    match r.lock
    case Free =>
      && r.mem == ToMap(wal) && SealedMatch(onDisk, r.sealed)
      && (r.flush.Some? ==> r.sealed.Some? && r.flush.value.id == r.sealed.value.id)
    case Flushing(recovering) =>
      && r.sealed == None && r.flush.Some? && (onDisk.Some? <==> recovering)
      && r.mem == ToMap((if onDisk.Some? then onDisk.value else []) + wal)
    case Truncating(recovering) =>
      && r.sealed == None && r.flush == None && (onDisk.Some? <==> recovering)
      && r.mem == map[] && Absorbed(ToMap((if onDisk.Some? then onDisk.value else []) + wal), r.tables, logs)
    case Dropping =>
      && r.sealed == None && r.flush == None && onDisk.Some?
      && r.mem == ToMap(wal) && Absorbed(ToMap(onDisk.value), r.tables, logs)
    case Recovering =>
      && r.sealed == None && r.flush == None && onDisk.Some? && r.merge == None
      && r.mem == ToMap(onDisk.value + wal)
    case Collecting =>
      && r.sealed == None && r.flush == None && onDisk == None && r.merge == None
      && r.mem == ToMap(wal) && r.mem == map[]
  }

  // A memtable's records with the large values moved to the value log.
  ghost predicate FlushedFrom(recs: map<Key, Body>, source: map<Key, Body>, logs: Logs) {
    && recs.Keys == source.Keys
    && forall k :: k in source ==> Resolve(recs[k], logs) == Resolve(source[k], logs)
  }

  // Exactly the values of at least the threshold are out of the table.
  ghost predicate SplitBySize(recs: map<Key, Body>, source: map<Key, Body>, threshold: nat) {
    && recs.Keys == source.Keys
    && forall k :: k in source ==>
         && (recs[k].Separated? <==> source[k].Inline? && |source[k].value| >= threshold)
         && (!recs[k].Separated? ==> recs[k] == source[k])
  }

  function FlushSource(r: Ram): map<Key, Body> {
    if r.sealed.Some? then r.sealed.value.entries else r.mem
  }

  ghost predicate FlushOk(flush: Option<FlushJob>, source: map<Key, Body>, gen: nat, d: Disk)
    requires gen in d.blobs
  {
    flush.Some? ==>
      var job := flush.value;
      && FlushedFrom(job.recs, source, LogsOf(d))
      && Sound(job.recs, gen, if job.stage == Appended then |d.blobs[gen].bytes| else d.blobs[gen].synced)
      && (job.stage == Built ==> job.id in d.files && d.files[job.id] == job.recs)
  }

  // The inputs of a size-tiered merge are still a consecutive run, which still reaches
  // the oldest table if it did when it was picked.
  ghost predicate RunAt(tables: seq<Table>, run: seq<Table>, drop: bool, a: nat) {
    && run != [] && a + |run| <= |tables| && tables[a..a + |run|] == run
    && (drop ==> a + |run| == |tables|)
  }

  // A leveled pick still describes the list behind the flushes that arrived since.
  ghost predicate SinkAt(tables: seq<Table>, p: LevelPick, c: nat) {
    && c <= |tables| && (forall t :: t in tables[..c] ==> t.level == 0)
    && IsLevelPick(tables[c..], p)
  }

  ghost predicate PlanOk(cfg: Config, tables: seq<Table>, plan: Plan) {
    match plan
    case Run(run, drop) => !cfg.leveled && exists a :: RunAt(tables, run, drop, a)
    case Sink(p) => cfg.leveled && exists c :: SinkAt(tables, p, c)
  }

  ghost predicate OutsOk(plan: Plan, outs: seq<Table>) {
    match plan
    case Run(run, drop) => |outs| == 1 && outs[0].level == 0 && outs[0].recs == MergedBy(plan)
    case Sink(p) => IsSplit(outs, p.Dest(), MergedBy(plan))
  }

  ghost predicate MergeOk(cfg: Config, tables: seq<Table>, merge: Option<MergeJob>, files: map<nat, map<Key, Body>>) {
    merge.Some? ==>
      var job := merge.value;
      && PlanOk(cfg, tables, job.plan)
      && (job.plan.Run? ==> job.outs.Some?)
      && (job.outs == None ==> job.built == 0)
      && (job.outs.Some? ==>
            && OutsOk(job.plan, job.outs.value)
            && job.built <= |job.outs.value|
            && Backed(job.outs.value[..job.built], files))
  }

  ghost predicate GcOk(r: Ram, d: Disk) {
    && (r.gc.Some? <==> r.lock == Collecting)
    && (r.gc.Some? ==>
          var job := r.gc.value;
          && r.gen + 1 in d.blobs
          && Sound(job.recs, r.gen + 1,
                   if job.stage == Appended then |d.blobs[r.gen + 1].bytes| else d.blobs[r.gen + 1].synced)
          && (forall k :: View(job.recs, [], LogsOf(d), k) == Read(r.tables, LogsOf(d), k))
          && (forall k :: k in job.recs ==> job.recs[k] != Deleted)
          && (job.stage == Built ==> job.id in d.files && d.files[job.id] == job.recs))
  }

  // A sequence number reserved for a file not yet listed.
  ghost predicate Unused(r: Ram, id: nat) {
    id < r.nextId && NoneHas(r.tables, id) && id !in r.garbage
  }

  ghost predicate YoungerThanL0(tables: seq<Table>, id: nat) {
    forall t :: t in tables && t.level == 0 ==> t.id < id
  }

  ghost predicate IdsOk(cfg: Config, r: Ram) {
    && (forall g :: g in r.garbage ==> g < r.nextId && NoneHas(r.tables, g))
    && (r.sealed.Some? ==>
          Unused(r, r.sealed.value.id) && (cfg.leveled ==> YoungerThanL0(r.tables, r.sealed.value.id)))
    && (r.flush.Some? ==>
          Unused(r, r.flush.value.id) && (cfg.leveled ==> YoungerThanL0(r.tables, r.flush.value.id)))
    && (r.gc.Some? ==> Unused(r, r.gc.value.id))
    && (r.merge.Some? && r.merge.value.outs.Some? ==>
          var outs := r.merge.value.outs.value;
          && DistinctIds(outs)
          && (forall o :: o in outs ==>
                && Unused(r, o.id)
                && (r.sealed.Some? ==> o.id != r.sealed.value.id)
                && (r.flush.Some? ==> o.id != r.flush.value.id)))
  }

  // Value-log generations: the current one, older ones still open, and during garbage
  // collection the next.
  ghost predicate GensOk(r: Ram, d: Disk) {
    && (forall g :: g in d.blobs ==> g <= r.gen || (r.lock == Collecting && g == r.gen + 1))
    && (forall g :: g in r.oldGens ==> g < r.gen)
  }

  // A reader's files and value log are still there, and everything it can still read is
  // the plain map at its snapshot.
  ghost predicate ReaderOk(rd: Reader, r: Ram, d: Disk) {
    && rd.gen in d.blobs && (rd.gen == r.gen || rd.gen in r.oldGens)
    && PlainMap(rd.upper)
    && AllSound(rd.tables, rd.gen, |d.blobs[rd.gen].bytes|)
    && Backed(rd.tables, d.files)
    && (forall t :: t in rd.tables ==> t.id in r.garbage || !NoneHas(r.tables, t.id))
    && Live(rd.upper, rd.tables, LogsOf(d), rd.want)
  }

  ghost predicate ReadersOk(r: Ram, d: Disk) {
    forall rd :: rd in r.readers ==> ReaderOk(rd, r, d)
  }

  ghost predicate RamOk(cfg: Config, r: Ram, d: Disk, now: map<Key, Bytes>)
    requires d.man.gen in d.blobs
  {
    && r.tables == ManTables(d) && r.gen == d.man.gen && d.man.nextId <= r.nextId
    && Live(Upper(r), r.tables, LogsOf(d), now)
    && MemOk(r, d.wal.recs, d.sealed, LogsOf(d))
    && FlushOk(r.flush, FlushSource(r), r.gen, d)
    && MergeOk(cfg, r.tables, r.merge, d.files)
    && GcOk(r, d)
    && IdsOk(cfg, r)
    && GensOk(r, d)
    && ReadersOk(r, d)
  }

  ghost predicate Inv(s: State) {
    && DiskOk(s.cfg, s.disk)
    && CrashOk(s.disk, s.spec)
    && (s.ram.Some? ==> RamOk(s.cfg, s.ram.value, s.disk, s.spec.now))
  }

  // ----- reads and logs -----

  ghost predicate LogsGrow(a: Logs, b: Logs) {
    forall g :: g in a ==> g in b && a[g] <= b[g]
  }

  lemma ResolveGrows(b: Body, l: Logs, l': Logs)
    requires LogsGrow(l, l') && Resolve(b, l) != Broken
    ensures Resolve(b, l') == Resolve(b, l)
  {
  }

  // A read that works keeps its answer while the logs grow.
  lemma ViewGrows(upper: map<Key, Body>, tables: seq<Table>, l: Logs, l': Logs, k: Key)
    requires LogsGrow(l, l') && View(upper, tables, l, k) != Broken
    ensures View(upper, tables, l', k) == View(upper, tables, l, k)
  {
    if k in upper {
      ResolveGrows(upper[k], l, l');
    } else if Lookup(tables, k).Some? {
      ResolveGrows(Lookup(tables, k).value, l, l');
    }
  }

  lemma LiveGrows(upper: map<Key, Body>, tables: seq<Table>, l: Logs, l': Logs, now: map<Key, Bytes>)
    requires LogsGrow(l, l') && Live(upper, tables, l, now)
    ensures Live(upper, tables, l', now)
  {
    forall k ensures View(upper, tables, l', k) == AnswerOf(now, k) {
      assert View(upper, tables, l, k) == AnswerOf(now, k);
      ViewGrows(upper, tables, l, l', k);
    }
  }

  // Two sets of logs that agree on the part the tables point into give the same reads.
  ghost predicate LogsAgree(l: Logs, l': Logs, gen: nat, limit: nat) {
    && gen in l && gen in l' && limit <= |l[gen]| && limit <= |l'[gen]|
    && l[gen][..limit] == l'[gen][..limit]
  }

  lemma ResolveAgrees(b: Body, l: Logs, l': Logs, gen: nat, limit: nat)
    requires LogsAgree(l, l', gen, limit)
    requires b.Separated? ==> b.ptr.gen == gen && b.ptr.offset + b.ptr.len <= limit
    ensures Resolve(b, l) == Resolve(b, l') != Broken
  {
    if b.Separated? {
      var p := b.ptr;
      assert l[gen][p.offset..p.offset + p.len] == l[gen][..limit][p.offset..p.offset + p.len];
      assert l'[gen][p.offset..p.offset + p.len] == l'[gen][..limit][p.offset..p.offset + p.len];
    }
  }

  lemma ReadAgrees(tables: seq<Table>, l: Logs, l': Logs, gen: nat, limit: nat)
    requires LogsAgree(l, l', gen, limit) && AllSound(tables, gen, limit)
    ensures SameRead(tables, l, tables, l')
    ensures forall k :: Read(tables, l, k) != Broken
  {
    forall k ensures Read(tables, l, k) == Read(tables, l', k) && Read(tables, l, k) != Broken {
      if Lookup(tables, k).Some? {
        var i := LookupSome(tables, k);
        assert tables[i] in tables;
        ResolveAgrees(tables[i].recs[k], l, l', gen, limit);
      }
    }
  }

  lemma ViewAgrees(upper: map<Key, Body>, tables: seq<Table>, l: Logs, l': Logs, gen: nat, limit: nat, k: Key)
    requires PlainMap(upper) && LogsAgree(l, l', gen, limit) && AllSound(tables, gen, limit)
    ensures View(upper, tables, l, k) == View(upper, tables, l', k) != Broken
  {
    ReadAgrees(tables, l, l', gen, limit);
  }

  // ----- layers moving into the tables -----

  // A memtable layer and a table with the same readable contents are interchangeable.
  lemma LayerBecomesTable(top: map<Key, Body>, layer: map<Key, Body>, t: Table, tables: seq<Table>, logs: Logs, k: Key)
    requires FlushedFrom(t.recs, layer, logs)
    ensures View(layer + top, tables, logs, k) == View(top, [t] + tables, logs, k)
  {
    assert ([t] + tables)[1..] == tables;
  }

  lemma LayerIsAbsorbed(layer: map<Key, Body>, t: Table, tables: seq<Table>, logs: Logs)
    requires FlushedFrom(t.recs, layer, logs)
    ensures Absorbed(layer, [t] + tables, logs)
  {
    assert ([t] + tables)[1..] == tables;
  }

  // An absorbed layer makes no difference.
  lemma AbsorbedLayerDrops(top: map<Key, Body>, layer: map<Key, Body>, tables: seq<Table>, logs: Logs, k: Key)
    requires Absorbed(layer, tables, logs)
    ensures View(layer + top, tables, logs, k) == View(top, tables, logs, k)
  {
  }

  lemma {:induction false} PlainReplay(recs: seq<Record>)
    requires AllPlain(recs)
    ensures PlainMap(ToMap(recs))
  {
    if recs != [] {
      PlainReplay(recs[..|recs| - 1]);
    }
  }

  // ----- the manifest -----

  // A manifest just written reads back as the list it was written from: order, levels
  // and contents.
  lemma ManifestReadsBack(d: Disk, r: Ram)
    requires Backed(r.tables, d.files)
    ensures ManTables(d.(man := ManifestFor(r))) == r.tables
  {
    var d' := d.(man := ManifestFor(r));
    assert |ManTables(d')| == |r.tables|;
    forall i | 0 <= i < |r.tables| ensures ManTables(d')[i] == r.tables[i] {
      assert r.tables[i] in r.tables;
    }
  }

  lemma ManTablesBacked(cfg: Config, d: Disk)
    requires DiskOk(cfg, d)
    ensures Backed(ManTables(d), d.files)
  {
    forall t | t in ManTables(d) ensures t.id in d.files && d.files[t.id] == t.recs {
      var i :| 0 <= i < |ManTables(d)| && ManTables(d)[i] == t;
      assert d.man.tables[i] in d.man.tables;
    }
  }

  // Files the manifest does not name may come, go or change.
  lemma ManTablesFrame(cfg: Config, d: Disk, d': Disk)
    requires DiskOk(cfg, d) && d'.man == d.man
    requires forall id :: id in d.files && !NoneHas(ManTables(d), id) ==> id in d'.files && d'.files[id] == d.files[id]
    ensures ManTables(d') == ManTables(d)
    ensures forall l :: l in d'.man.tables ==> l.id in d'.files
  {
    ManTablesBacked(cfg, d);
    assert |ManTables(d')| == |ManTables(d)|;
    forall i | 0 <= i < |d.man.tables|
      ensures ManTables(d')[i] == ManTables(d)[i] && d.man.tables[i].id in d'.files
    {
      assert ManTables(d)[i] in ManTables(d);
      assert d.man.tables[i] in d.man.tables;
    }
  }
}
