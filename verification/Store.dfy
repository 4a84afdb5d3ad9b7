// The store as a state machine. A state is the disk, the memory of the running process
// (None while it is down) and a plain-map specification. Each critical section of the
// source is a step; the slow work between critical sections is its own steps, so they
// interleave; a critical section with several durable actions is several steps with the
// lock field saying how far it has got, so that a crash may fall between them.
module Store {
  import opened Keys
  import opened Records
  import opened Layers
  import opened LeveledCommit
  import opened ValueLog

  // ----- disk -----

  // wal.log: the first `synced` records survive every crash.
  datatype Wal = Wal(recs: seq<Record>, synced: nat)

  // A value-log file: the first `synced` bytes survive every crash.
  datatype Blob = Blob(bytes: Bytes, synced: nat)

  datatype Listed = Listed(id: nat, level: nat)

  datatype Manifest = Manifest(nextId: nat, gen: nat, tables: seq<Listed>)

  // sealed is wal-flushing.log, which is synced before it gets its name.
  datatype Disk = Disk(
    files: map<nat, map<Key, Body>>,
    man: Manifest,
    wal: Wal,
    sealed: Option<seq<Record>>,
    blobs: map<nat, Blob>)

  function BytesOf(blobs: map<nat, Blob>): Logs {
    map g | g in blobs :: blobs[g].bytes
  }

  function LogsOf(d: Disk): Logs {
    BytesOf(d.blobs)
  }

  function TablesOf(listed: seq<Listed>, files: map<nat, map<Key, Body>>): seq<Table> {
    seq(|listed|, i requires 0 <= i < |listed| =>
      Table(listed[i].id, listed[i].level, if listed[i].id in files then files[listed[i].id] else map[]))
  }

  // The table list a reopening process reads from the manifest.
  function ManTables(d: Disk): seq<Table> {
    TablesOf(d.man.tables, d.files)
  }

  function SealedRecs(d: Disk): seq<Record> {
    if d.sealed.Some? then d.sealed.value else []
  }

  // What a key reads as after a crash that leaves the first n records of wal.log.
  function CrashView(d: Disk, n: nat, k: Key): Answer
    requires n <= |d.wal.recs|
  {
    View(ToMap(SealedRecs(d) + d.wal.recs[..n]), ManTables(d), LogsOf(d), k)
  }

  // ----- memory -----

  datatype Sealed = Sealed(entries: map<Key, Body>, id: nat)

  datatype Stage = Appended | Synced | Built

  datatype FlushJob = FlushJob(id: nat, recs: map<Key, Body>, stage: Stage)

  datatype Plan = Run(run: seq<Table>, drop: bool) | Sink(p: LevelPick)

  // A compaction in flight: its inputs, its planned output files, how many are written.
  datatype MergeJob = MergeJob(plan: Plan, outs: Option<seq<Table>>, built: nat)

  datatype GcJob = GcJob(id: nat, recs: map<Key, Body>, stage: Stage)

  // Which critical section is under way: none; a synchronous flush before or after its
  // manifest commit; a background flush that has committed but not yet removed
  // wal-flushing.log; recovery before its flush; garbage collection.
  datatype Lock =
    | Free
    | Flushing(recovering: bool)
    | Truncating(recovering: bool)
    | Dropping
    | Recovering
    | Collecting

  // A read in progress: its copy of the memtables, its table list and value-log
  // generation, and the plain map at the instant of the snapshot.
  datatype Reader = Reader(upper: map<Key, Body>, tables: seq<Table>, gen: nat, want: map<Key, Bytes>)

  // garbage and oldGens are the files marked obsolete and not yet unlinked.
  datatype Ram = Ram(
    mem: map<Key, Body>,
    sealed: Option<Sealed>,
    tables: seq<Table>,
    gen: nat,
    nextId: nat,
    flush: Option<FlushJob>,
    merge: Option<MergeJob>,
    gc: Option<GcJob>,
    readers: seq<Reader>,
    garbage: set<nat>,
    oldGens: set<nat>,
    lock: Lock)

  function Upper(r: Ram): map<Key, Body> {
    (if r.sealed.Some? then r.sealed.value.entries else map[]) + r.mem
  }

  // ----- specification -----

  // The plain map, the map at the last durable point, and the writes since then.
  datatype Spec = Spec(now: map<Key, Bytes>, durable: map<Key, Bytes>, since: seq<Record>)

  function AnswerOf(m: map<Key, Bytes>, k: Key): Answer {
    if k in m then Found(m[k]) else Missing
  }

  function Effect(b: Body): Answer {
    match b
    case Inline(v) => Found(v)
    case _ => Missing
  }

  // a is the effect on k of some write no older than the last durable one.
  ghost predicate Admissible(sp: Spec, k: Key, a: Answer) {
    || a == AnswerOf(sp.durable, k)
    || exists i :: 0 <= i < |sp.since| && sp.since[i].key == k && a == Effect(sp.since[i].body)
  }

  function Written(m: map<Key, Bytes>, w: Record): map<Key, Bytes> {
    match w.body
    case Inline(v) => m[w.key := v]
    case _ => m - {w.key}
  }

  // Everything visible is durable.
  function MadeDurable(sp: Spec): Spec {
    Spec(sp.now, sp.now, [])
  }

  // ----- states -----

  // The strategy is fixed for the life of the store, as is the separation threshold.
  datatype Config = Config(leveled: bool, threshold: nat)

  datatype State = State(cfg: Config, disk: Disk, ram: Option<Ram>, spec: Spec)

  // A plain write: a put with its value or a delete.
  predicate Plain(b: Body) {
    !b.Separated?
  }

  function ManifestFor(r: Ram): Manifest {
    Manifest(r.nextId, r.gen,
             seq(|r.tables|, i requires 0 <= i < |r.tables| => Listed(r.tables[i].id, r.tables[i].level)))
  }

  predicate Up(s: State) {
    s.ram.Some?
  }

  predicate Idle(s: State) {
    Up(s) && s.ram.value.lock == Free
  }

  // ----- steps: writes -----

  // put and del without the fsync: log, then memtable.
  predicate CanWrite(s: State, w: Record) {
    Idle(s) && Plain(w.body)
  }

  function Write(s: State, w: Record): State
    requires CanWrite(s, w)
  {
    var r := s.ram.value;
    s.(disk := s.disk.(wal := s.disk.wal.(recs := s.disk.wal.recs + [w])),
       ram := Some(r.(mem := r.mem[w.key := w.body])),
       spec := s.spec.(now := Written(s.spec.now, w), since := s.spec.since + [w]))
  }

  // The fsync of a synced write, of sync() and of a seal.
  function Sync(s: State): State
    requires Idle(s)
  {
    s.(disk := s.disk.(wal := s.disk.wal.(synced := |s.disk.wal.recs|)), spec := MadeDurable(s.spec))
  }

  // seal_locked after its fsync: rename wal.log, start a fresh one, swap the memtables.
  predicate CanSeal(s: State) {
    && Idle(s) && s.ram.value.sealed == None && s.ram.value.mem != map[]
    && s.disk.wal.synced == |s.disk.wal.recs|
  }

  function Seal(s: State): State
    requires CanSeal(s)
  {
    var r := s.ram.value;
    s.(disk := s.disk.(wal := Wal([], 0), sealed := Some(s.disk.wal.recs)),
       ram := Some(r.(mem := map[], sealed := Some(Sealed(r.mem, r.nextId)), nextId := r.nextId + 1)))
  }

  // ----- steps: the background flush -----

  ghost function AppendedTo(s: State, source: map<Key, Body>, id: nat): (Disk, FlushJob)
    requires Up(s) && s.ram.value.gen in s.disk.blobs
  {
    var r := s.ram.value;
    var b := s.disk.blobs[r.gen];
    var (recs, log) := MoveTable(source, BySize(s.cfg.threshold), r.gen, b.bytes);
    (s.disk.(blobs := s.disk.blobs[r.gen := b.(bytes := log)]), FlushJob(id, recs, Appended))
  }

  predicate CanFlushAppend(s: State) {
    Up(s) && s.ram.value.sealed.Some? && s.ram.value.flush == None && s.ram.value.gen in s.disk.blobs
  }

  ghost function FlushAppend(s: State): State
    requires CanFlushAppend(s)
  {
    var r := s.ram.value;
    var (d, job) := AppendedTo(s, r.sealed.value.entries, r.sealed.value.id);
    s.(disk := d, ram := Some(r.(flush := Some(job))))
  }

  predicate CanFlushSync(s: State) {
    && Up(s) && s.ram.value.flush.Some? && s.ram.value.flush.value.stage == Appended
    && s.ram.value.gen in s.disk.blobs
  }

  // Some value of the flush went to the value log.
  predicate AnySeparated(recs: map<Key, Body>) {
    exists k :: k in recs && recs[k].Separated?
  }

  // The value log is synced only if the flush wrote to it.
  function FlushSync(s: State): State
    requires CanFlushSync(s)
  {
    var r := s.ram.value;
    var b := s.disk.blobs[r.gen];
    var synced := if AnySeparated(r.flush.value.recs) then |b.bytes| else b.synced;
    s.(disk := s.disk.(blobs := s.disk.blobs[r.gen := b.(synced := synced)]),
       ram := Some(r.(flush := Some(r.flush.value.(stage := Synced)))))
  }

  predicate CanFlushBuild(s: State) {
    Up(s) && s.ram.value.flush.Some? && s.ram.value.flush.value.stage == Synced
  }

  function FlushBuild(s: State): State
    requires CanFlushBuild(s)
  {
    var r := s.ram.value;
    var job := r.flush.value;
    s.(disk := s.disk.(files := s.disk.files[job.id := job.recs]),
       ram := Some(r.(flush := Some(job.(stage := Built)))))
  }

  predicate CanFlushCommit(s: State) {
    && Idle(s) && s.ram.value.sealed.Some?
    && s.ram.value.flush.Some? && s.ram.value.flush.value.stage == Built
  }

  function FlushCommit(s: State): State
    requires CanFlushCommit(s)
  {
    var r := s.ram.value;
    var job := r.flush.value;
    var r' := r.(tables := [Table(job.id, 0, job.recs)] + r.tables, sealed := None, flush := None, lock := Dropping);
    s.(disk := s.disk.(man := ManifestFor(r')), ram := Some(r'))
  }

  predicate CanDrop(s: State) {
    Up(s) && s.ram.value.lock == Dropping
  }

  function Drop(s: State): State
    requires CanDrop(s)
  {
    s.(disk := s.disk.(sealed := None), ram := Some(s.ram.value.(lock := Free)))
  }

  // ----- steps: the synchronous flush of flush(), garbage collection and recovery -----

  predicate CanLockedFlush(s: State) {
    && Up(s) && (s.ram.value.lock == Free || s.ram.value.lock == Recovering)
    && s.ram.value.sealed == None && s.ram.value.flush == None && s.ram.value.mem != map[]
    && s.ram.value.gen in s.disk.blobs
  }

  ghost function LockedFlush(s: State): State
    requires CanLockedFlush(s)
  {
    var r := s.ram.value;
    var (d, job) := AppendedTo(s, r.mem, r.nextId);
    s.(disk := d,
       ram := Some(r.(flush := Some(job), nextId := r.nextId + 1, lock := Flushing(r.lock == Recovering))))
  }

  predicate CanLockedCommit(s: State) {
    && Up(s) && s.ram.value.lock.Flushing?
    && s.ram.value.flush.Some? && s.ram.value.flush.value.stage == Built
  }

  function LockedCommit(s: State): State
    requires CanLockedCommit(s)
  {
    var r := s.ram.value;
    var job := r.flush.value;
    var r' := r.(tables := [Table(job.id, 0, job.recs)] + r.tables, mem := map[], flush := None,
                 lock := Truncating(r.lock.recovering));
    s.(disk := s.disk.(man := ManifestFor(r')), ram := Some(r'))
  }

  predicate CanTruncate(s: State) {
    Up(s) && s.ram.value.lock.Truncating?
  }

  // Truncates wal.log; in recovery also removes wal-flushing.log, in the same step. All
  // that is visible is now in tables the manifest names, so it is durable.
  function Truncate(s: State): State
    requires CanTruncate(s)
  {
    s.(disk := s.disk.(wal := Wal([], 0), sealed := if s.ram.value.lock.recovering then None else s.disk.sealed),
       ram := Some(s.ram.value.(lock := Free)),
       spec := MadeDurable(s.spec))
  }

  // ----- steps: compaction -----

  function InputsOf(p: Plan): seq<Table> {
    match p
    case Run(run, _) => run
    case Sink(l) => l.Inputs()
  }

  function MergedBy(p: Plan): map<Key, Body> {
    match p
    case Run(run, drop) => Merged(run, drop)
    case Sink(l) => Merged(l.Inputs(), l.drop)
  }

  // Size-tiered: any consecutive run of at least two tables. pick_compaction returns
  // such a run, whatever the bucket function.
  predicate CanMergeRun(s: State, i: nat, j: nat) {
    Idle(s) && !s.cfg.leveled && s.ram.value.merge == None && i + 2 <= j <= |s.ram.value.tables|
  }

  function MergeRun(s: State, i: nat, j: nat): State
    requires CanMergeRun(s, i, j)
  {
    var r := s.ram.value;
    var plan := Run(r.tables[i..j], j == |r.tables|);
    var out := Table(r.nextId, 0, MergedBy(plan));
    s.(ram := Some(r.(merge := Some(MergeJob(plan, Some([out]), 0)), nextId := r.nextId + 1)))
  }

  // Leveled: any source level that has tables.
  ghost predicate CanMergeLevel(s: State, p: LevelPick) {
    Idle(s) && s.cfg.leveled && s.ram.value.merge == None && IsLevelPick(s.ram.value.tables, p)
  }

  ghost function MergeLevel(s: State, p: LevelPick): State
    requires CanMergeLevel(s, p)
  {
    s.(ram := Some(s.ram.value.(merge := Some(MergeJob(Sink(p), None, 0)))))
  }

  // The second critical section of a leveled compaction: one number per output file.
  ghost predicate CanReserve(s: State, outs: seq<Table>) {
    && Idle(s) && s.ram.value.merge.Some? && s.ram.value.merge.value.outs == None
    && s.ram.value.merge.value.plan.Sink?
    && IsSplit(outs, s.ram.value.merge.value.plan.p.Dest(), MergedBy(s.ram.value.merge.value.plan))
    && (forall i :: 0 <= i < |outs| ==> outs[i].id == s.ram.value.nextId + i)
  }

  ghost function Reserve(s: State, outs: seq<Table>): State
    requires CanReserve(s, outs)
  {
    var r := s.ram.value;
    s.(ram := Some(r.(merge := Some(r.merge.value.(outs := Some(outs))), nextId := r.nextId + |outs|)))
  }

  predicate CanMergeBuild(s: State) {
    && Up(s) && s.ram.value.merge.Some? && s.ram.value.merge.value.outs.Some?
    && s.ram.value.merge.value.built < |s.ram.value.merge.value.outs.value|
  }

  function MergeBuild(s: State): State
    requires CanMergeBuild(s)
  {
    var r := s.ram.value;
    var job := r.merge.value;
    var out := job.outs.value[job.built];
    s.(disk := s.disk.(files := s.disk.files[out.id := out.recs]),
       ram := Some(r.(merge := Some(job.(built := job.built + 1)))))
  }

  // install_merge_result: the output takes the newest input's slot.
  function Install(tables: seq<Table>, inputs: seq<Table>, out: Table): seq<Table> {
    if tables == [] then [out]
    else if tables[0] in inputs then [out] + Without(tables[1..], inputs)
    else [tables[0]] + Install(tables[1..], inputs, out)
  }

  predicate CanMergeCommit(s: State) {
    && Idle(s) && s.ram.value.merge.Some? && s.ram.value.merge.value.outs.Some?
    && s.ram.value.merge.value.built == |s.ram.value.merge.value.outs.value|
    && (s.ram.value.merge.value.plan.Run? ==> |s.ram.value.merge.value.outs.value| == 1)
  }

  function Ids(tables: seq<Table>): set<nat> {
    set t | t in tables :: t.id
  }

  ghost function MergeCommit(s: State): State
    requires CanMergeCommit(s)
  {
    var r := s.ram.value;
    var job := r.merge.value;
    var inputs := InputsOf(job.plan);
    var tables := if job.plan.Run? then Install(r.tables, inputs, job.outs.value[0])
                  else Commit(r.tables, inputs, job.outs.value);
    var r' := r.(tables := tables, merge := None, garbage := r.garbage + Ids(inputs));
    s.(disk := s.disk.(man := ManifestFor(r')), ram := Some(r'))
  }

  // ----- steps: value-log garbage collection -----

  // After gc's own flush: the memtable is empty, no flush or compaction is in flight.
  predicate CanGcRelocate(s: State) {
    && Idle(s) && s.ram.value.sealed == None && s.ram.value.merge == None && s.ram.value.mem == map[]
    && s.ram.value.tables != []
  }

  // Opens the next generation (on whatever a file of that name held) and copies the
  // surviving separated values there.
  ghost function GcRelocate(s: State): State
    requires CanGcRelocate(s)
  {
    var r := s.ram.value;
    var was := if r.gen + 1 in s.disk.blobs then s.disk.blobs[r.gen + 1] else Blob([], 0);
    var (recs, log) := MoveTable(Merged(r.tables, true), FromLogs(LogsOf(s.disk)), r.gen + 1, was.bytes);
    s.(disk := s.disk.(blobs := s.disk.blobs[r.gen + 1 := was.(bytes := log)]),
       ram := Some(r.(gc := Some(GcJob(r.nextId, recs, Appended)), nextId := r.nextId + 1, lock := Collecting)))
  }

  predicate CanGcSync(s: State) {
    && Up(s) && s.ram.value.lock == Collecting && s.ram.value.gc.Some? && s.ram.value.gc.value.stage == Appended
    && s.ram.value.gen + 1 in s.disk.blobs
  }

  function GcSync(s: State): State
    requires CanGcSync(s)
  {
    var r := s.ram.value;
    var b := s.disk.blobs[r.gen + 1];
    s.(disk := s.disk.(blobs := s.disk.blobs[r.gen + 1 := b.(synced := |b.bytes|)]),
       ram := Some(r.(gc := Some(r.gc.value.(stage := Synced)))))
  }

  predicate CanGcBuild(s: State) {
    Up(s) && s.ram.value.lock == Collecting && s.ram.value.gc.Some? && s.ram.value.gc.value.stage == Synced
  }

  function GcBuild(s: State): State
    requires CanGcBuild(s)
  {
    var r := s.ram.value;
    var job := r.gc.value;
    s.(disk := s.disk.(files := s.disk.files[job.id := job.recs]),
       ram := Some(r.(gc := Some(job.(stage := Built)))))
  }

  predicate CanGcCommit(s: State) {
    Up(s) && s.ram.value.lock == Collecting && s.ram.value.gc.Some? && s.ram.value.gc.value.stage == Built
  }

  function GcCommit(s: State): State
    requires CanGcCommit(s)
  {
    var r := s.ram.value;
    var job := r.gc.value;
    var r' := r.(tables := [Table(job.id, 0, job.recs)], gen := r.gen + 1, gc := None, lock := Free,
                 garbage := r.garbage + Ids(r.tables), oldGens := r.oldGens + {r.gen});
    s.(disk := s.disk.(man := ManifestFor(r')), ram := Some(r'))
  }

  // ----- steps: readers and unlinking -----

  function OpenReader(s: State): State
    requires Idle(s)
  {
    var r := s.ram.value;
    s.(ram := Some(r.(readers := r.readers + [Reader(Upper(r), r.tables, r.gen, s.spec.now)])))
  }

  predicate CanCloseReader(s: State, i: nat) {
    Up(s) && i < |s.ram.value.readers|
  }

  function CloseReader(s: State, i: nat): State
    requires CanCloseReader(s, i)
  {
    var r := s.ram.value;
    s.(ram := Some(r.(readers := r.readers[..i] + r.readers[i + 1..])))
  }

  // An obsolete table file goes once no reader holds it and no job reads from it.
  ghost predicate CanUnlink(s: State, id: nat) {
    Up(s) && id in s.ram.value.garbage &&
    forall rd :: rd in s.ram.value.readers ==> id !in Ids(rd.tables)
  }

  function Unlink(s: State, id: nat): State
    requires Up(s)
  {
    var r := s.ram.value;
    s.(disk := s.disk.(files := s.disk.files - {id}), ram := Some(r.(garbage := r.garbage - {id})))
  }

  ghost predicate CanUnlinkLog(s: State, g: nat) {
    Up(s) && g in s.ram.value.oldGens && forall rd :: rd in s.ram.value.readers ==> rd.gen != g
  }

  function UnlinkLog(s: State, g: nat): State
    requires Up(s)
  {
    var r := s.ram.value;
    s.(disk := s.disk.(blobs := s.disk.blobs - {g}), ram := Some(r.(oldGens := r.oldGens - {g})))
  }

  // ----- steps: crash and recovery -----

  // The process dies; wal.log keeps some prefix that includes every synced record, and
  // each value log some prefix that includes every synced byte.
  ghost predicate CanCrash(s: State, n: nat, blobs: map<nat, Blob>) {
    && s.disk.wal.synced <= n <= |s.disk.wal.recs|
    && blobs.Keys == s.disk.blobs.Keys
    && forall g :: g in blobs ==>
         && blobs[g].synced == s.disk.blobs[g].synced <= |blobs[g].bytes|
         && blobs[g].bytes <= s.disk.blobs[g].bytes
  }

  ghost function Crash(s: State, n: nat, blobs: map<nat, Blob>): State
    requires CanCrash(s, n, blobs)
  {
    s.(disk := s.disk.(wal := s.disk.wal.(recs := s.disk.wal.recs[..n]), blobs := blobs), ram := None)
  }

  // Open-time cleanup, one file at a time, so that a crash may interrupt it.
  predicate CanCleanFile(s: State, id: nat) {
    !Up(s) && forall l :: l in s.disk.man.tables ==> l.id != id
  }

  function CleanFile(s: State, id: nat): State {
    s.(disk := s.disk.(files := s.disk.files - {id}))
  }

  predicate CanCleanLog(s: State, g: nat) {
    !Up(s) && g != s.disk.man.gen
  }

  function CleanLog(s: State, g: nat): State {
    s.(disk := s.disk.(blobs := s.disk.blobs - {g}))
  }

  // The map a reopening process recovers.
  function Recovered(d: Disk): map<Key, Bytes> {
    var n := |d.wal.recs|;
    map k | k in ToMap(SealedRecs(d) + d.wal.recs).Keys + Overlay(ManTables(d)).Keys && CrashView(d, n, k).Found?
      :: CrashView(d, n, k).value
  }

  // How many records of wal.log survive every crash.
  function SyncedCount(w: Wal): nat {
    if w.synced <= |w.recs| then w.synced else |w.recs|
  }

  // The map that survives every crash of this disk.
  function Kept(d: Disk): map<Key, Bytes> {
    Recovered(d.(wal := d.wal.(recs := d.wal.recs[..SyncedCount(d.wal)])))
  }

  // What a reopening process may still lose: the unsynced records that survived. Writes
  // that did not survive are gone for good.
  function Reopened(d: Disk): Spec {
    Spec(Recovered(d), Kept(d), d.wal.recs[SyncedCount(d.wal)..])
  }

  // The rest of the constructor up to its flush: tables from the manifest, orphans gone,
  // the sealed log replayed first, then wal.log.
  predicate CanOpen(s: State) {
    !Up(s)
  }

  function Open(s: State): State
    requires CanOpen(s)
  {
    var live := set l | l in s.disk.man.tables :: l.id;
    var d := s.disk.(files := map id | id in s.disk.files && id in live :: s.disk.files[id],
                     blobs := map g | g in s.disk.blobs && g == s.disk.man.gen :: s.disk.blobs[g]);
    var r := Ram(ToMap(SealedRecs(d) + d.wal.recs), None, ManTables(d), d.man.gen, d.man.nextId,
                 None, None, None, [], {}, {}, if d.sealed.Some? then Recovering else Free);
    s.(disk := d, ram := Some(r), spec := Reopened(d))
  }
}
