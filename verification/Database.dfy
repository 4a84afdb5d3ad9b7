// The database object: fields updated in place by the operations, each operation tied to
// the steps of the state machine and, through the invariant, to the plain map.
module Database {
  import opened Keys
  import opened Records
  import opened Layers
  import opened Leveled
  import opened LeveledCommit
  import opened LeveledPick
  import opened LeveledSplit
  import opened OpenTables
  import opened TableFormat
  import opened ValueLog
  import opened Store
  import opened StoreInv
  import opened StoreRuns
  import opened DbLoops
  import Codec
  import StoreWrites
  import StoreFlush
  import StoreSizes
  import StoreMerge
  import StoreGc
  import StoreCrash
  import opened StoreFiles
  import StoreWindows
  import Memtable
  import Pick
  import Queries
  import Quiesce
  import TableReads
  import TableScans

  lemma LeveledIsOrdered(s: State)
    requires Inv(s) && Up(s) && s.cfg.leveled
    ensures WellOrdered(s.ram.value.tables)
  {
    hide WellOrdered, CrashOk, Live, MemOk, FlushOk, MergeOk, GcOk, IdsOk, ReadersOk, GensOk;
  }

  // What the operations use of the invariant.
  lemma Facts(s: State)
    requires Inv(s) && Up(s)
    ensures var r := s.ram.value;
            && r.gen in s.disk.blobs
            && (r.lock == Free && r.flush.Some? ==> r.sealed.Some?)
            && (r.lock == Recovering ==> r.mem != map[] && r.sealed == None && r.flush == None)
            && (r.lock == Free ==> r.gc == None)
            && (r.lock == Free && r.mem == map[] ==> s.disk.wal == Wal([], 0))
            && (forall l :: l in s.disk.man.tables ==> l.id in s.disk.files)
  {
    hide Less, CrashOk, WellOrdered, Live, FlushOk, MergeOk, IdsOk, ReadersOk, GensOk;
    var r := s.ram.value;
    if r.lock == Recovering {
      var all := s.disk.sealed.value + s.disk.wal.recs;
      assert all != [];
      ToMapKeys(all, all[0].key);
    }
    if s.disk.wal.recs != [] {
      ToMapKeys(s.disk.wal.recs, s.disk.wal.recs[0].key);
    }
  }

  // ----- sizes -----

  ghost predicate AllFit(tables: seq<Table>) {
    forall t :: t in tables ==> FitMap(t.recs)
  }

  // Every record in memory has lengths that fit 32 bits.
  ghost predicate RamFits(r: Ram) {
    && FitMap(r.mem) && (r.sealed.Some? ==> FitMap(r.sealed.value.entries)) && AllFit(r.tables)
    && (r.flush.Some? ==> FitMap(r.flush.value.recs)) && (r.gc.Some? ==> FitMap(r.gc.value.recs))
    && (r.merge.Some? ==>
          AllFit(InputsOf(r.merge.value.plan)) && (r.merge.value.outs.Some? ==> AllFit(r.merge.value.outs.value)))
  }

  // So does every record of the logs and of the named tables, whose lengths were read from
  // 32-bit fields.
  ghost predicate DiskFits(d: Disk) {
    && (forall r :: r in SealedRecs(d) + d.wal.recs ==> Fit(r.key, r.body))
    && (forall l :: l in d.man.tables && l.id in d.files ==> FitMap(d.files[l.id]))
  }

  lemma {:induction false} ReplayFits(recs: seq<Record>)
    requires forall r :: r in recs ==> Fit(r.key, r.body)
    ensures FitMap(ToMap(recs))
  {
    hide Fit;
    if recs != [] {
      ReplayFits(recs[..|recs| - 1]);
      assert recs[|recs| - 1] in recs;
    }
  }

  lemma OpenFits(s: State)
    requires Inv(s) && CanOpen(s) && DiskFits(s.disk)
    ensures RamFits(Open(s).ram.value)
  {
    hide Inv, ToMap, Recovered, Fit, FitMap;
    ReplayFits(SealedRecs(s.disk) + s.disk.wal.recs);
    OpenKeepsNames(s);
    var tables := Open(s).ram.value.tables;
    forall t | t in tables ensures FitMap(t.recs) {
      var i :| 0 <= i < |tables| && tables[i] == t;
      assert s.disk.man.tables[i] in s.disk.man.tables;
    }
  }

  lemma OpenKeepsNames(s: State)
    requires Inv(s) && CanOpen(s)
    ensures Open(s).ram.value.tables == ManTables(s.disk)
    ensures forall l :: l in s.disk.man.tables ==> l.id in s.disk.files
  {
    hide CrashOk, WellOrdered, Less, Recovered, ToMap, ManTables;
    StoreCrash.OpenKeepsDisk(s);
  }

  lemma MergedFits(inputs: seq<Table>, drop: bool)
    requires AllFit(inputs)
    ensures FitMap(Merged(inputs, drop))
  {
    hide Merged, Fit;
    forall k | k in Merged(inputs, drop) ensures Fit(k, Merged(inputs, drop)[k]) {
      StoreMerge.MergedBody(inputs, drop, k);
      LookupOverlay(inputs, k);
      var i := LookupSome(inputs, k);
      assert inputs[i] in inputs;
    }
  }

  lemma EmptyFits()
    ensures FitMap(map[])
  {
  }

  lemma OneOutputFits(id: nat, recs: map<Key, Body>)
    requires FitMap(recs)
    ensures AllFit([Table(id, 0, recs)])
  {
    hide FitMap;
  }

  lemma SliceFits(tables: seq<Table>, i: nat, j: nat)
    requires AllFit(tables) && i <= j <= |tables|
    ensures AllFit(tables[i..j])
  {
    hide FitMap;
  }

  lemma PickFits(tables: seq<Table>, p: LevelPick)
    requires AllFit(tables) && IsLevelPick(tables, p)
    ensures AllFit(p.Inputs())
  {
    hide FitMap, IsLevelPick;
    forall t | t in p.Inputs() ensures FitMap(t.recs) {
      InputsAreListed(tables, p, t);
    }
  }

  lemma SplitFits(outs: seq<Table>, level: nat, merged: map<Key, Body>)
    requires IsSplit(outs, level, merged) && FitMap(merged)
    ensures AllFit(outs)
  {
    hide Less, Fit, MinKey, MaxKey;
    forall o, k | o in outs && k in o.recs ensures Fit(k, o.recs[k]) {
      assert k in merged && o.recs[k] == merged[k];
    }
  }

  lemma CommitFits(s: State)
    requires Inv(s) && CanMergeCommit(s) && RamFits(s.ram.value)
    ensures RamFits(Store.MergeCommit(s).ram.value)
  {
    hide Less, CrashOk, WellOrdered, Live, MemOk, FlushOk, GcOk, IdsOk, ReadersOk, Install, Commit, Fit, FitMap,
         IsSplit, Merged, Visible;
    StoreMerge.CommitIsSound(s.cfg, s.ram.value);
    assert Store.MergeCommit(s).ram.value.tables == StoreMerge.NextTables(s.ram.value);
  }

  lemma GetAnswers(s: State, k: Key)
    requires Inv(s) && Up(s)
    ensures StoreRuns.Get(s, k) == AnswerOf(s.spec.now, k)
  {
    hide View, DiskOk, CrashOk;
  }

  lemma NothingReplayed()
    ensures ToMap([]) == map[] && forall m: map<Key, Body> :: map[] + m == m
  {
  }

  lemma OpenFacts(s: State)
    requires Inv(s) && !Up(s)
    ensures forall l :: l in s.disk.man.tables ==> l.id in s.disk.files
    ensures AllPlain(s.disk.wal.recs) && AllPlain(SealedRecs(s.disk))
  {
    hide CrashOk, WellOrdered, Less;
  }

  // The directory after open-time cleanup.
  ghost function Cleaned(d: Disk): Disk {
    d.(files := map id | id in d.files && id in (set l | l in d.man.tables :: l.id) :: d.files[id],
       blobs := map g | g in d.blobs && g in {d.man.gen} :: d.blobs[g])
  }

  // What the constructor computes piece by piece is the opening step's state.
  lemma OpenReplays(s: State)
    requires Inv(s) && CanOpen(s)
    ensures var d := Cleaned(s.disk);
            && SealedRecs(d) == SealedRecs(s.disk) && d.wal == s.disk.wal && d.man == s.disk.man
            && d.sealed == s.disk.sealed
            && Open(s) == State(s.cfg, d, Some(Ram(ToMap(SealedRecs(d)) + ToMap(d.wal.recs), None,
                                                   TablesOf(s.disk.man.tables, s.disk.files), d.man.gen, d.man.nextId,
                                                   None, None, None, [], {}, {},
                                                   if d.sealed.Some? then Recovering else Free)),
                                Reopened(d))
  {
    hide Inv, TablesOf, Recovered, ToMap, Kept;
    ToMapAppend(SealedRecs(s.disk), s.disk.wal.recs);
    StoreCrash.OpenKeepsDisk(s);
    assert Cleaned(s.disk).blobs == map g | g in s.disk.blobs && g == s.disk.man.gen :: s.disk.blobs[g];
    assert Open(s).disk == Cleaned(s.disk);
    assert Open(s).ram.value.tables == TablesOf(s.disk.man.tables, s.disk.files);
  }

  lemma OpenIsAdmissible(s: State)
    requires Inv(s) && CanOpen(s)
    ensures forall k :: Admissible(s.spec, k, AnswerOf(Open(s).spec.now, k))
    ensures AllowsLess(Open(s).spec, s.spec) && AllowsLess(MadeDurable(Open(s).spec), s.spec)
  {
    hide Inv, Admissible, Open, StoreRuns.Get, AllowsLess;
    StepFollowsSpec(s, DoOpen);
    forall k ensures Admissible(s.spec, k, AnswerOf(Open(s).spec.now, k)) {
      OpenAnswers(s, k);
    }
    OnlyNow(Open(s).spec, s.spec);
  }

  lemma OnlyNow(a: Spec, b: Spec)
    requires forall k :: Admissible(b, k, AnswerOf(a.now, k))
    ensures AllowsLess(MadeDurable(a), b)
  {
  }

  lemma WritesKey(now: map<Key, Bytes>, w: Record)
    requires Plain(w.body)
    ensures w.body.Inline? ==> Written(now, w) == now[w.key := w.body.value]
    ensures w.body == Deleted ==> Written(now, w) == now - {w.key}
  {
  }

  ghost function Buckets(tables: seq<Table>, bucket: nat -> int, size: Table -> nat): seq<int> {
    seq(|tables|, k requires 0 <= k < |tables| => bucket(size(tables[k])))
  }

  // No run of tables in one bucket is long enough to merge.
  ghost predicate NothingEligible(buckets: seq<int>, minMerge: nat) {
    minMerge < 2 || forall i: nat, j: nat :: !Pick.Eligible(buckets, minMerge, i, j)
  }

  lemma PickedRun(buckets: seq<int>, minMerge: nat, pick: Pick.CompactionPick) returns (i: nat, j: nat)
    requires exists i: nat, j: nat ::
               Pick.IsBest(buckets, minMerge, i, j) && pick == Pick.CompactionPick(Pick.Span(i, j), j == |buckets|)
    ensures Pick.IsBest(buckets, minMerge, i, j) && i + minMerge <= j <= |buckets|
    ensures pick == Pick.CompactionPick(Pick.Span(i, j), j == |buckets|)
  {
    i, j :| Pick.IsBest(buckets, minMerge, i, j) && pick == Pick.CompactionPick(Pick.Span(i, j), j == |buckets|);
  }

  lemma RunShrinks(s: State, i: nat, j: nat)
    requires Inv(s) && CanMergeRun(s, i, j)
    ensures var r := Store.MergeRun(s, i, j).ram.value;
            |Install(s.ram.value.tables, InputsOf(r.merge.value.plan), r.merge.value.outs.value[0])| ==
            |s.ram.value.tables| - (j - i) + 1
  {
    hide Less, CrashOk, WellOrdered, Live, MemOk, FlushOk, MergeOk, IdsOk, ReadersOk, GensOk, GcOk, Install, Merged;
    var r := Store.MergeRun(s, i, j).ram.value;
    Quiesce.MergeRunShrinks(s.ram.value.tables, i, j, r.merge.value.outs.value[0]);
  }

  // Merging everything leaves the merge, which has no tombstone.
  lemma WholeRun(s: State)
    requires Inv(s) && Up(s) && CanMergeRun(s, 0, |s.ram.value.tables|)
    ensures var r := Store.MergeRun(s, 0, |s.ram.value.tables|).ram.value;
            var out := r.merge.value.outs.value[0];
            && Install(s.ram.value.tables, InputsOf(r.merge.value.plan), out) == [out]
            && forall k :: k in out.recs ==> out.recs[k] != Deleted
  {
    hide Less, CrashOk, WellOrdered, Live, MemOk, FlushOk, MergeOk, IdsOk, ReadersOk, GensOk, GcOk, Install, Overlay;
    var tables := s.ram.value.tables;
    var r := Store.MergeRun(s, 0, |tables|).ram.value;
    assert tables[0..|tables|] == tables;
    StoreMerge.InstallReplacesRun(tables, tables, true, 0, r.merge.value.outs.value[0]);
  }

  lemma CollectionKeepsMerge(s: State)
    requires StoreGc.CollectionRuns(s)
    ensures StoreGc.Collected(s).ram.value.merge == s.ram.value.merge
  {
    hide ManifestFor, MoveTable, Merged;
  }

  // The steps of a synchronous flush follow one another, and what they leave.
  lemma FlushOutcome(s: State)
    requires Inv(s) && CanLockedFlush(s)
    ensures var s1 := Store.LockedFlush(s);
            && CanFlushSync(s1) && CanFlushBuild(Store.FlushSync(s1))
            && CanLockedCommit(Store.FlushBuild(Store.FlushSync(s1)))
    ensures var s2 := Store.LockedCommit(Store.FlushBuild(Store.FlushSync(Store.LockedFlush(s))));
            && CanTruncate(s2) && s2.ram.value.lock == Truncating(s.ram.value.lock == Recovering)
            && var s' := Store.Truncate(s2);
               && s'.spec == MadeDurable(s.spec) && s'.ram.value.mem == map[] && s'.ram.value.sealed == None
               && s'.ram.value.merge == s.ram.value.merge && s'.ram.value.gen == s.ram.value.gen
               && |s'.ram.value.tables| == |s.ram.value.tables| + 1 && s'.ram.value.lock == Free
               && s'.ram.value.tables[1..] == s.ram.value.tables && s'.ram.value.flush == None
               && s'.ram.value.garbage == s.ram.value.garbage && s'.ram.value.oldGens == s.ram.value.oldGens
               && s'.ram.value.gc == s.ram.value.gc
               && SplitBySize(s'.ram.value.tables[0].recs, s.ram.value.mem, s.cfg.threshold)
  {
    hide Inv, ManifestFor, MoveTable, AnySeparated, SplitBySize, PlainMap;
    StoreWindows.FlushReachesItsCommit(s);
    StoreSizes.MemtablesArePlain(s);
    StoreFlush.SeparationKeepsReads(s.ram.value.mem, s.cfg.threshold, s.ram.value.gen, s.disk.blobs);
  }

  // The files a leveled merge writes: its records in key order, cut at the target size,
  // numbered from id.
  ghost predicate CutAt(outs: seq<Table>, p: LevelPick, id: nat, target: nat) {
    exists groups :: && Grouping(groups, Listing(Merged(p.Inputs(), p.drop)), target)
                     && outs == OutputTables(groups, id, p.Dest())
  }

  // The list moves by the merge of a due level, cut at the target size.
  ghost predicate LeveledInto(a: seq<Table>, b: seq<Table>, minMerge: nat, budget: nat -> nat, size: Table -> nat,
                              id: nat, target: nat)
  {
    exists p, outs ::
      && IsLevelPick(a, p) && Quiesce.SourceDue(a, minMerge, budget, size, p.src) && CutAt(outs, p, id, target)
      && b == Commit(a, p.Inputs(), outs)
  }

  lemma AppendSplits(s: State)
    requires Inv(s) && CanFlushAppend(s)
    ensures var job := Store.FlushAppend(s).ram.value.flush;
            job.Some? && SplitBySize(job.value.recs, s.ram.value.sealed.value.entries, s.cfg.threshold)
  {
    hide Inv, MoveTable, SplitBySize, PlainMap;
    StoreSizes.MemtablesArePlain(s);
    StoreFlush.SeparationKeepsReads(s.ram.value.sealed.value.entries, s.cfg.threshold, s.ram.value.gen, s.disk.blobs);
  }

  lemma SealSteps(s: State)
    requires Inv(s) && Accounted(s) && Idle(s) && CanSeal(Store.Sync(s))
    ensures Inv(Seal(Store.Sync(s))) && Accounted(Seal(Store.Sync(s)))
  {
    hide Inv, Accounted;
    StoreWrites.SyncKeepsInv(s);
    SyncKeepsFiles(s);
    StoreWrites.SealKeepsInv(Store.Sync(s));
    SealKeepsFiles(Store.Sync(s));
  }

  lemma OnlyListedFiles(s: State)
    requires Accounted(s) && Up(s)
    requires var r := s.ram.value;
             r.flush == None && r.merge == None && r.gc == None && r.garbage == {} && r.oldGens == {}
    ensures s.disk.files.Keys == Ids(s.ram.value.tables) && s.disk.blobs.Keys == {s.ram.value.gen}
  {
  }

  lemma NotEmpty(t: Memtable.Table)
    requires t.entries != map[]
    ensures t.Contents() != map[]
  {
    var k :| k in t.entries;
    assert k in t.Contents();
  }

  class Db {
    const cfg: Config
    const memThreshold: nat
    var mem: Memtable.Table
    // The sealed memtable, if its flush has not finished, and its reserved number.
    var flushing: Memtable.Table?
    var flushingSeq: nat
    var tables: seq<Table>
    var gen: nat
    var nextSeq: nat
    // What the flusher, the compactor and the collector are holding.
    var flush: Option<FlushJob>
    var merge: Option<MergeJob>
    var gc: Option<GcJob>
    var garbage: set<nat>
    var oldGens: set<nat>
    // The destructor has asked the threads to stop.
    var stop: bool
    // The store's directory.
    var disk: Disk
    ghost var lock: Lock
    ghost var readers: seq<Reader>
    ghost var spec: Spec

    ghost function Objects(): set<object>
      reads this
    {
      if flushing == null then {this, mem} else {this, mem, flushing as object}
    }

    ghost function Memory(): Ram
      reads this, mem, flushing
    {
      Ram(mem.Contents(), if flushing == null then None else Some(Sealed(flushing.Contents(), flushingSeq)),
          tables, gen, nextSeq, flush, merge, gc, readers, garbage, oldGens, lock)
    }

    ghost function Abs(): State
      reads this, mem, flushing
    {
      State(cfg, disk, Some(Memory()), spec)
    }

    ghost predicate Valid()
      reads this, mem, flushing
    {
      && mem.Valid() && (flushing != null ==> flushing.Valid() && flushing != mem)
      && Inv(Abs()) && Accounted(Abs()) && RamFits(Memory())
    }

    // No critical section is under way.
    ghost predicate Ready()
      reads this, mem, flushing
    {
      Valid() && lock == Free
    }

    // ----- opening -----

    // Loads the manifest's tables in its order, then removes the files it does not name.
    method LoadFiles()
      requires forall l :: l in disk.man.tables ==> l.id in disk.files
      modifies `tables, `disk
      ensures tables == TablesOf(disk.man.tables, old(disk.files))
      ensures disk == Cleaned(old(disk))
    {
      hide TablesOf;
      tables := LoadTables(disk.man.tables, disk.files);
      var files := RemoveOrphans(disk.files, set l | l in disk.man.tables :: l.id);
      var blobs := RemoveOrphans(disk.blobs, {disk.man.gen});
      disk := disk.(files := files, blobs := blobs);
    }

    // The sealed log first, then the active one on top.
    method ReplayLogs()
      requires mem.Valid() && mem.Contents() == map[] && AllPlain(SealedRecs(disk)) && AllPlain(disk.wal.recs)
      modifies mem
      ensures mem.Valid() && mem.Contents() == ToMap(SealedRecs(disk)) + ToMap(disk.wal.recs)
    {
      hide ToMap, Memtable.Table.Valid, Memtable.Table.Contents;
      NothingReplayed();
      if disk.sealed.Some? {
        Memtable.Apply(mem, disk.sealed.value);
      }
      Memtable.Apply(mem, disk.wal.recs);
    }

    method Load(ghost s: State)
      requires Inv(s) && DiskFits(s.disk) && !Up(s) && cfg == s.cfg && disk == s.disk && spec == s.spec
      requires mem.Valid()
      requires Memory() == Ram(map[], None, [], disk.man.gen, disk.man.nextId, None, None, None, [], {}, {}, Free)
      modifies this, mem
      ensures Valid() && Abs() == Open(s) && Objects() == old(Objects()) && stop == old(stop)
    {
      hide Inv, Accounted, Recovered, ToMap, Memtable.Table.Valid, Memtable.Table.Contents, TablesOf, Open, AllPlain,
           RamFits, DiskFits, Cleaned, SealedRecs, Reopened;
      OpenFacts(s);
      OpenFits(s);
      OpenReplays(s);
      LoadFiles();
      StoreCrash.OpenKeepsInv(s);
      OpenStep(s);
      ReplayLogs();
      lock := if disk.sealed.Some? then Recovering else Free;
      spec := Reopened(disk);
    }

    // Opening a directory, in whatever state a crash left it: every key reads as the
    // effect of some write no older than its last durable one, and the store is ready. If
    // a sealed log was found, all that was recovered is durable. The files of the live
    // tables and of the current value log are left, and no others.
    constructor (cfg: Config, memThreshold: nat, disk: Disk, ghost spec: Spec)
      requires Inv(State(cfg, disk, None, spec)) && DiskFits(disk)
      ensures Ready() && fresh(Objects()) && flushing == null && !stop
      ensures this.cfg == cfg && this.memThreshold == memThreshold
      ensures forall k :: Admissible(spec, k, AnswerOf(this.spec.now, k))
      ensures AllowsLess(this.spec, spec)
      ensures this.spec == if disk.sealed == None then Reopened(Cleaned(disk)) else MadeDurable(this.spec)
      ensures this.disk.files.Keys == Ids(tables) && this.disk.blobs.Keys == {gen}
    {
      hide Inv, Accounted, Admissible, Recovered, ToMap, Memtable.Table.Valid, Memtable.Table.Contents, TablesOf,
           AnswerOf, RamFits, DiskFits, Open, Reopened, AllowsLess, Cleaned, SplitBySize, Ids;
      this.cfg, this.memThreshold, this.disk, stop := cfg, memThreshold, disk, false;
      mem := new Memtable.Table();
      flushing, flushingSeq := null, 0;
      tables, gen, nextSeq := [], disk.man.gen, disk.man.nextId;
      flush, merge, gc, garbage, oldGens := None, None, None, {}, {};
      lock, readers, this.spec := Free, [], spec;
      new;
      ghost var s := State(cfg, disk, None, spec);
      Load(s);
      OpenIsAdmissible(s);
      OpenReplays(s);
      if disk.sealed.Some? {
        FlushLocked(true);
      }
      OnlyListedFiles(Abs());
    }

    // ----- the manifest -----

    // The committed table set becomes the live one.
    method WriteManifest()
      modifies `disk
      ensures disk == old(disk).(man := ManifestFor(Memory()))
    {
      var listed := DescribeTables(tables);
      disk := disk.(man := Manifest(nextSeq, gen, listed));
      assert disk.man == ManifestFor(Memory());
    }

    // ----- writes -----

    // Fails on a field of 4 GiB or more, changing nothing. Otherwise the write is visible at
    // once, survives every crash if synced, and moves a full memtable aside.
    method Put(key: Key, value: Bytes, sync: bool) returns (ok: bool)
      requires Ready()
      modifies Objects()
      ensures Ready() && fresh(Objects() - old(Objects()))
      ensures ok <==> Codec.Fits32(|key|) && Codec.Fits32(|value|)
      ensures !ok ==> Abs() == old(Abs())
      ensures ok ==> spec.now == old(spec.now)[key := value]
      ensures ok ==>
                || spec == MadeDurable(spec)
                || (!sync && spec.durable == old(spec.durable)
                    && spec.since == old(spec.since) + [Record(key, Inline(value))])
      ensures ok && !stop ==> mem.sizeBytes < memThreshold || mem.Contents() == map[]
    {
      hide Inv, Accounted, Written, Memtable.Table.Valid, Memtable.Table.Contents;
      ok := Codec.Fits32(|key|) && Codec.Fits32(|value|);
      if !ok {
        return;
      }
      ghost var s, w := Abs(), Record(key, Inline(value));
      disk := disk.(wal := disk.wal.(recs := disk.wal.recs + [Record(key, Inline(value))]));
      if sync {
        disk := disk.(wal := disk.wal.(synced := |disk.wal.recs|));
      }
      mem.Put(key, value);
      spec := if sync then MadeDurable(Store.Write(s, w).spec) else Store.Write(s, w).spec;
      StoreWrites.WriteKeepsInv(s, w);
      WriteKeepsFiles(s, w);
      StoreWrites.SyncKeepsInv(Store.Write(s, w));
      SyncKeepsFiles(Store.Write(s, w));
      assert Abs() == if sync then Store.Sync(Store.Write(s, w)) else Store.Write(s, w);
      WritesKey(s.spec.now, w);
      MaybeSeal();
    }

    method Del(key: Key, sync: bool) returns (ok: bool)
      requires Ready()
      modifies Objects()
      ensures Ready() && fresh(Objects() - old(Objects()))
      ensures ok <==> Codec.Fits32(|key|)
      ensures !ok ==> Abs() == old(Abs())
      ensures ok ==> spec.now == old(spec.now) - {key}
      ensures ok ==>
                || spec == MadeDurable(spec)
                || (!sync && spec.durable == old(spec.durable)
                    && spec.since == old(spec.since) + [Record(key, Deleted)])
      ensures ok && !stop ==> mem.sizeBytes < memThreshold || mem.Contents() == map[]
    {
      hide Inv, Accounted, Written, Memtable.Table.Valid, Memtable.Table.Contents;
      ok := Codec.Fits32(|key|);
      if !ok {
        return;
      }
      ghost var s, w := Abs(), Record(key, Deleted);
      disk := disk.(wal := disk.wal.(recs := disk.wal.recs + [Record(key, Deleted)]));
      if sync {
        disk := disk.(wal := disk.wal.(synced := |disk.wal.recs|));
      }
      mem.Del(key);
      spec := if sync then MadeDurable(Store.Write(s, w).spec) else Store.Write(s, w).spec;
      StoreWrites.WriteKeepsInv(s, w);
      WriteKeepsFiles(s, w);
      StoreWrites.SyncKeepsInv(Store.Write(s, w));
      SyncKeepsFiles(Store.Write(s, w));
      assert Abs() == if sync then Store.Sync(Store.Write(s, w)) else Store.Write(s, w);
      WritesKey(s.spec.now, w);
      MaybeSeal();
    }

    method Sync()
      requires Ready()
      modifies this
      ensures Ready() && Objects() == old(Objects()) && Abs() == Store.Sync(old(Abs()))
    {
      hide Inv, Accounted, Memtable.Table.Valid, Memtable.Table.Contents;
      StoreWrites.SyncKeepsInv(Abs());
      SyncKeepsFiles(Abs());
      disk := disk.(wal := disk.wal.(synced := |disk.wal.recs|));
      spec := MadeDurable(spec);
      assert Abs() == Store.Sync(old(Abs()));
    }

    // A full memtable is sealed once the flushing slot is free, unless the store is
    // stopping; the wait for the slot is the flusher finishing its work.
    method MaybeSeal()
      requires Ready()
      modifies Objects()
      ensures Ready() && fresh(Objects() - old(Objects()))
      ensures spec == old(spec) || spec == MadeDurable(old(spec))
      ensures stop == old(stop)
      ensures old(mem.sizeBytes) < memThreshold || stop ==> Abs() == old(Abs()) && mem.sizeBytes == old(mem.sizeBytes)
      ensures old(mem.sizeBytes) >= memThreshold && !stop ==> mem.Contents() == map[]
    {
      hide Inv, Accounted, Memtable.Table.Valid, Memtable.Table.Contents;
      if mem.sizeBytes < memThreshold {
        return;
      }
      if stop {
        return;
      }
      FinishFlush();
      SealLocked();
    }

    method SealLocked()
      requires Ready() && flushing == null
      modifies Objects()
      ensures Ready() && fresh(Objects() - old(Objects())) && mem.Contents() == map[]
      ensures old(mem.Contents()) == map[] ==> Abs() == old(Abs())
      ensures old(mem.Contents()) != map[] ==> Abs() == Store.Seal(Store.Sync(old(Abs())))
      ensures stop == old(stop)
    {
      hide Inv, Accounted, Memtable.Table.Valid, FitMap, AllFit;
      if mem.entries == map[] {
        return;
      }
      EmptyFits();
      ghost var s := Abs();
      assert mem.Contents() != map[] by {
        NotEmpty(mem);
      }
      hide Memtable.Table.Contents;
      SealSteps(s);
      disk := disk.(wal := disk.wal.(synced := |disk.wal.recs|));
      spec := MadeDurable(spec);
      disk := disk.(sealed := Some(disk.wal.recs), wal := Wal([], 0));
      flushingSeq := nextSeq;
      nextSeq := nextSeq + 1;
      flushing := mem;
      mem := new Memtable.Table();
      assert Abs() == Store.Seal(Store.Sync(s));
    }

    // ----- flushes -----

    // Off-lock: the large values of the sealed memtable go to the value log.
    method FlushAppend()
      requires Ready() && flushing != null && flush == None
      modifies `disk, `flush
      ensures Ready() && Abs() == Store.FlushAppend(old(Abs()))
      ensures flush.Some? && SplitBySize(flush.value.recs, flushing.Contents(), cfg.threshold)
    {
      hide Inv, Accounted, ToMap, MoveOut, Listing, Memtable.Table.Valid, Memtable.Table.Contents, FitMap, Appendable;
      ghost var s := Abs();
      Facts(s);
      StoreFlush.FlushAppendKeepsInv(s);
      FlushAppendKeepsFiles(s);
      AppendSplits(s);
      FitMoves(flushing.Contents(), BySize(cfg.threshold), gen, disk.blobs[gen].bytes);
      var records := flushing.Snapshot();
      var log := disk.blobs[gen];
      var ok, recs, bytes := MoveValues(records, BySize(cfg.threshold), gen, log.bytes);
      assert ok;
      disk := disk.(blobs := disk.blobs[gen := log.(bytes := bytes)]);
      flush := Some(FlushJob(flushingSeq, ToMap(recs), Appended));
      assert Abs() == Store.FlushAppend(s);
    }

    // The value log is durable before a pointer into it is.
    method FlushSync()
      requires Valid() && CanFlushSync(Abs())
      modifies `disk, `flush
      ensures Valid() && Abs() == Store.FlushSync(old(Abs()))
    {
      hide Inv, Accounted, AnySeparated, Memtable.Table.Valid, Memtable.Table.Contents;
      ghost var s := Abs();
      StoreFlush.FlushSyncKeepsInv(s);
      StepKeepsFiles(s, DoFlushSync);
      var log := disk.blobs[gen];
      var job := flush.value;
      var wrote := AnySeparated(job.recs);
      if wrote {
        disk := disk.(blobs := disk.blobs[gen := log.(synced := |log.bytes|)]);
      }
      flush := Some(job.(stage := Synced));
      assert wrote || disk.blobs[gen := log] == disk.blobs;
      assert Abs() == Store.FlushSync(s);
    }

    method FlushBuild()
      requires Valid() && CanFlushBuild(Abs())
      modifies `disk, `flush
      ensures Valid() && Abs() == Store.FlushBuild(old(Abs()))
    {
      hide Inv, Accounted, Memtable.Table.Valid, Memtable.Table.Contents;
      ghost var s := Abs();
      StoreFlush.FlushBuildKeepsInv(s);
      FlushBuildStep(s);
      var job := flush.value;
      disk := disk.(files := disk.files[job.id := job.recs]);
      flush := Some(job.(stage := Built));
      assert Abs() == Store.FlushBuild(s);
    }

    // The manifest lists the new table before the sealed log goes.
    method FlushCommit()
      requires Ready() && CanFlushCommit(Abs())
      modifies this
      ensures Ready() && Abs() == Store.Drop(Store.FlushCommit(old(Abs())))
      ensures mem == old(mem) && flushing == null && stop == old(stop)
    {
      hide Inv, Accounted, ManifestFor, Memtable.Table.Valid, Memtable.Table.Contents;
      ghost var s := Abs();
      StoreFlush.FlushCommitKeepsInv(s);
      StepKeepsFiles(s, DoFlushCommit);
      var job := flush.value;
      tables := [Table(job.id, 0, job.recs)] + tables;
      flushing := null;
      flush := None;
      lock := Dropping;
      WriteManifest();
      assert Abs() == Store.FlushCommit(s);
      StoreFlush.DropKeepsInv(Abs());
      StepKeepsFiles(Abs(), DoDrop);
      disk := disk.(sealed := None);
      lock := Free;
    }

    // Whatever the flusher has done so far, it finishes.
    method FinishFlush()
      requires Ready()
      modifies this
      ensures Ready() && flushing == null && mem == old(mem) && spec == old(spec) && merge == old(merge)
      ensures stop == old(stop) && gen == old(gen)
      ensures old(flushing) == null ==> Abs() == old(Abs())
      ensures old(flushing) != null || old(tables) != [] ==> tables != []
    {
      hide Inv, Accounted, ManifestFor, Memtable.Table.Valid, Memtable.Table.Contents, AnySeparated, AppendedTo;
      if flushing == null {
        return;
      }
      Facts(Abs());
      if flush == None {
        FlushAppend();
      }
      Facts(Abs());
      if flush.value.stage == Appended {
        FlushSync();
      }
      if flush.value.stage == Synced {
        FlushBuild();
      }
      FlushCommit();
    }

    // The synchronous flush: append, sync, build, commit, and only then drop the log. In
    // recovery the last step also removes the sealed log. All that is visible is then
    // durable, and was already if the memtable is empty.
    method FlushLocked(recovering: bool)
      requires Valid() && lock == (if recovering then Recovering else Free) && flushing == null
      modifies Objects()
      ensures Ready() && fresh(Objects() - old(Objects()))
      ensures flushing == null && mem.Contents() == map[] && spec == MadeDurable(old(spec)) && merge == old(merge)
      ensures stop == old(stop) && gen == old(gen)
      ensures old(mem.Contents()) == map[] ==> Abs() == old(Abs()).(spec := MadeDurable(old(spec)))
      ensures garbage == old(garbage) && oldGens == old(oldGens) && gc == old(gc) && flush == None
      ensures old(mem.Contents()) != map[] ==>
                && |tables| == |old(tables)| + 1 && tables[1..] == old(tables)
                && SplitBySize(tables[0].recs, old(mem.Contents()), cfg.threshold)
    {
      hide Inv, Accounted, Memtable.Table.Valid, RamFits;
      Facts(Abs());
      if mem.entries == map[] {
        StoreWrites.SyncKeepsInv(Abs());
        SyncKeepsFiles(Abs());
        spec := MadeDurable(spec);
        assert Abs() == Store.Sync(old(Abs()));
        return;
      }
      assert mem.Contents() != map[] by {
        NotEmpty(mem);
      }
      hide Memtable.Table.Contents;
      FlushMemtable(recovering);
    }

    method FlushMemtable(recovering: bool)
      requires Valid() && lock == (if recovering then Recovering else Free) && CanLockedFlush(Abs())
      modifies Objects()
      ensures Ready() && fresh(Objects() - old(Objects()))
      ensures flushing == null && mem.Contents() == map[] && spec == MadeDurable(old(spec)) && merge == old(merge)
      ensures stop == old(stop) && gen == old(gen) && |tables| == |old(tables)| + 1
      ensures garbage == old(garbage) && oldGens == old(oldGens) && gc == old(gc) && flush == None
      ensures tables[1..] == old(tables) && SplitBySize(tables[0].recs, old(mem.Contents()), cfg.threshold)
    {
      hide Inv, Accounted, Memtable.Table.Valid, RamFits, Memtable.Table.Contents, Store.LockedFlush, Store.FlushSync,
           Store.FlushBuild, Store.LockedCommit, Store.Truncate, CanFlushSync, CanFlushBuild, CanLockedCommit;
      FlushOutcome(Abs());
      LockedAppend(recovering);
      FlushSync();
      FlushBuild();
      LockedCommit();
      TruncateLog(recovering);
    }

    method LockedAppend(recovering: bool)
      requires Valid() && CanLockedFlush(Abs()) && lock == (if recovering then Recovering else Free)
      modifies `disk, `flush, `nextSeq, `lock
      ensures Valid() && Abs() == Store.LockedFlush(old(Abs())) && CanFlushSync(Abs())
    {
      hide Inv, Accounted, ToMap, MoveOut, Listing, Memtable.Table.Valid, Memtable.Table.Contents, FitMap, Appendable;
      ghost var s := Abs();
      StoreFlush.LockedFlushKeepsInv(s);
      LockedFlushKeepsFiles(s);
      FitMoves(mem.Contents(), BySize(cfg.threshold), gen, disk.blobs[gen].bytes);
      var id := nextSeq;
      nextSeq := nextSeq + 1;
      var records := mem.Snapshot();
      var log := disk.blobs[gen];
      var ok, recs, bytes := MoveValues(records, BySize(cfg.threshold), gen, log.bytes);
      assert ok;
      disk := disk.(blobs := disk.blobs[gen := log.(bytes := bytes)]);
      flush := Some(FlushJob(id, ToMap(recs), Appended));
      lock := Flushing(recovering);
      assert Abs() == Store.LockedFlush(s);
    }

    method LockedCommit()
      requires Valid() && CanLockedCommit(Abs())
      modifies this
      ensures Valid() && Abs() == Store.LockedCommit(old(Abs())) && fresh(mem) && flushing == old(flushing)
      ensures stop == old(stop)
    {
      hide Inv, Accounted, Memtable.Table.Valid, Memtable.Table.Contents, ManifestFor;
      ghost var s := Abs();
      StoreFlush.LockedCommitKeepsInv(s);
      LockedCommitKeepsFiles(s);
      var job := flush.value;
      tables := [Table(job.id, 0, job.recs)] + tables;
      flush := None;
      lock := Truncating(lock.recovering);
      var emptied := new Memtable.Table();
      mem := emptied;
      WriteManifest();
      assert Memory() == Store.LockedCommit(s).ram.value;
    }

    method TruncateLog(recovering: bool)
      requires Valid() && lock == Truncating(recovering)
      modifies `disk, `lock, `spec
      ensures Ready() && Abs() == Store.Truncate(old(Abs()))
    {
      hide Inv, Accounted, Memtable.Table.Valid, Memtable.Table.Contents;
      StoreFlush.TruncateKeepsInv(Abs());
      StepKeepsFiles(Abs(), DoTruncate);
      disk := disk.(wal := Wal([], 0), sealed := if recovering then None else disk.sealed);
      spec := MadeDurable(spec);
      lock := Free;
      assert Abs() == Store.Truncate(old(Abs()));
    }

    // On return everything written so far is in tables and durable, unless the store is
    // stopping.
    method Flush()
      requires Ready()
      modifies Objects()
      ensures Ready() && fresh(Objects() - old(Objects())) && stop == old(stop)
      ensures stop ==> Abs() == old(Abs())
      ensures !stop ==> spec == MadeDurable(old(spec)) && mem.Contents() == map[] && flushing == null
    {
      hide Inv, Accounted, Memtable.Table.Valid, Memtable.Table.Contents, RamFits;
      if stop {
        return;
      }
      FinishFlush();
      FlushLocked(false);
    }

    // ----- reads -----

    // Active memtable, sealed memtable, then the open tables: the plain map's answer, with
    // the tables' filters consulted or not.
    method Get(key: Key, useBloom: bool, open: seq<TableReads.Opened>, ghost blocks: seq<Blocks>) returns (a: Answer)
      requires Valid() && AllStand(open, blocks, tables)
      ensures a == AnswerOf(spec.now, key)
    {
      hide Inv, Accounted, AnswerOf, AllStand, RamFits;
      GetAnswers(Abs(), key);
      if mem.Get(key).Some? {
        return Found(mem.Get(key).value);
      }
      if mem.IsTombstone(key) {
        return Missing;
      }
      if flushing != null {
        if flushing.Get(key).Some? {
          return Found(flushing.Get(key).value);
        }
        if flushing.IsTombstone(key) {
          return Missing;
        }
      }
      a := GetFromTables(open, LogsOf(disk), key, useBloom, blocks, tables);
    }

    // Exactly the plain map's pairs in range, in key order.
    method Scan(start: Key, end: Key, open: seq<TableReads.Opened>, ghost blocks: seq<Blocks>)
      returns (out: seq<(Key, Bytes)>)
      requires Valid() && AllStand(open, blocks, tables)
      ensures Queries.PairsAscend(out)
      ensures forall k, v :: (k, v) in out <==> Queries.Within(k, start, end) && k in spec.now && spec.now[k] == v
    {
      hide Inv, Accounted, Memtable.Table.Contents, Memtable.Table.Valid, Queries.PairsAscend, Queries.Within,
           TableScans.InRange, Listing, View, LogsOf, Less, AllStand, RamFits;
      ghost var s, m := Abs(), mem.Contents();
      ghost var sealed := if flushing == null then None else Some(flushing.Contents());
      forall k ensures View(Queries.SealedOr(sealed) + m, tables, LogsOf(disk), k) == AnswerOf(spec.now, k) {
        GetAnswers(s, k);
      }
      var top := mem.Range(start, end);
      var sources := [top];
      if flushing != null {
        var middle := flushing.Range(start, end);
        sources := sources + [middle];
      }
      var rest := TableRanges(open, start, end, blocks, tables);
      sources := sources + rest;
      assert sources == Queries.SourcesOf(Queries.LayersOf(m, sealed, tables), start, end);
      var result := Queries.Scan(sources, LogsOf(disk), m, sealed, tables, start, end);
      out := result.value;
    }

    // ----- size-tiered compaction -----

    // Picks a run of similar tables, reserves a number and merges them.
    method StartMerge(bucket: nat -> int, size: Table -> nat, minMerge: nat)
      requires Ready() && !cfg.leveled && merge == None
      modifies `merge, `nextSeq
      ensures Ready() && spec == old(spec)
      ensures merge == None ==> Abs() == old(Abs())
      ensures merge == None <==> NothingEligible(Buckets(tables, bucket, size), minMerge)
      ensures merge.Some? ==>
                exists i: nat, j: nat :: Pick.IsBest(Buckets(tables, bucket, size), minMerge, i, j) &&
                  CanMergeRun(old(Abs()), i, j) && Abs() == Store.MergeRun(old(Abs()), i, j)
    {
      hide Inv, Accounted, Memtable.Table.Contents, Memtable.Table.Valid, Merged, Pick.Eligible, Pick.IsBest, ToMap,
           FitMap;
      var sizes := seq(|tables|, i requires 0 <= i < |tables| reads this => size(tables[i]));
      ghost var buckets := Buckets(tables, bucket, size);
      assert buckets == seq(|sizes|, k requires 0 <= k < |sizes| => bucket(sizes[k]));
      var pick := Pick.PickCompaction(sizes, bucket, minMerge);
      if pick == None {
        return;
      }
      ghost var s := Abs();
      ghost var i: nat, j: nat := PickedRun(buckets, minMerge, pick.value);
      var inputs := ChosenTables(tables, pick.value.indices, i, j);
      var merged := DbLoops.MergeTables(inputs, pick.value.drop);
      StoreMerge.MergeRunKeepsInv(s, i, j);
      MergeRunKeepsFiles(s, i, j);
      SliceFits(tables, i, j);
      MergedFits(inputs, pick.value.drop);
      hide AllFit;
      OneOutputFits(nextSeq, ToMap(merged));
      merge := Some(MergeJob(Run(inputs, pick.value.drop), Some([Table(nextSeq, 0, ToMap(merged))]), 0));
      nextSeq := nextSeq + 1;
      assert Pick.IsBest(buckets, minMerge, i, j) && CanMergeRun(s, i, j) && Abs() == Store.MergeRun(s, i, j);
    }

    // Writes the output files that are not written yet.
    method BuildOutputs()
      requires Ready() && merge.Some? && merge.value.outs.Some? && merge.value.built <= |merge.value.outs.value|
      modifies `merge, `disk
      ensures Ready() && merge == Some(old(merge).value.(built := |old(merge).value.outs.value|))
    {
      hide Inv, Accounted, Memtable.Table.Contents, Memtable.Table.Valid;
      while merge.value.built < |merge.value.outs.value|
        invariant Ready() && merge.Some? && merge == Some(old(merge).value.(built := merge.value.built))
        invariant merge.value.built <= |merge.value.outs.value|
      {
        ghost var s := Abs();
        StoreMerge.MergeBuildKeepsInv(s);
        MergeBuildStep(s);
        var job := merge.value;
        var out := job.outs.value[job.built];
        disk := disk.(files := disk.files[out.id := out.recs]);
        merge := Some(job.(built := job.built + 1));
        assert Abs() == Store.MergeBuild(s);
      }
    }

    // The manifest is committed before the inputs become obsolete.
    method CommitMerge()
      requires Ready() && CanMergeCommit(Abs()) && merge.value.plan.Run?
      modifies this
      ensures Ready() && Abs() == Store.MergeCommit(old(Abs())) && Objects() == old(Objects())
    {
      hide Inv, Accounted, Memtable.Table.Contents, Memtable.Table.Valid, Install, ManifestFor;
      ghost var s := Abs();
      StoreMerge.MergeCommitKeepsInv(s);
      MergeCommitKeepsFiles(s);
      CommitFits(s);
      var inputs := merge.value.plan.run;
      tables := InstallMergeResult(tables, inputs, merge.value.outs.value[0]);
      merge := None;
      garbage := garbage + Ids(inputs);
      WriteManifest();
      assert Memory() == Store.MergeCommit(s).ram.value;
    }

    // One whole size-tiered compaction: nothing visible changes, and it leaves strictly
    // fewer tables if it did anything.
    method CompactSizeTiered(bucket: nat -> int, size: Table -> nat, minMerge: nat) returns (did: bool)
      requires Ready() && !cfg.leveled && merge == None
      modifies this
      ensures Ready() && Objects() == old(Objects()) && merge == None && spec == old(spec)
      ensures did <==> !NothingEligible(Buckets(old(tables), bucket, size), minMerge)
      ensures did ==> |tables| < |old(tables)|
      ensures !did ==> Abs() == old(Abs())
    {
      hide Inv, Accounted, Memtable.Table.Contents, Memtable.Table.Valid, Install, ManifestFor, Merged, Pick.IsBest,
           Pick.Eligible;
      StartMerge(bucket, size, minMerge);
      if merge == None {
        return false;
      }
      ghost var s := old(Abs());
      ghost var i: nat, j: nat :| Pick.IsBest(Buckets(s.ram.value.tables, bucket, size), minMerge, i, j) &&
        CanMergeRun(s, i, j) && Abs() == Store.MergeRun(s, i, j);
      BuildOutputs();
      CommitMerge();
      RunShrinks(s, i, j);
      did := true;
    }

    // A full compaction, with no other in flight: one table is left and nothing visible
    // changes.
    method CompactAll()
      requires Ready() && !cfg.leveled && merge == None
      modifies this
      ensures Ready() && Objects() == old(Objects()) && merge == None && spec == old(spec)
      ensures |old(tables)| <= 1 ==> Abs() == old(Abs())
      ensures |old(tables)| > 1 ==> |tables| == 1 && forall k :: k in tables[0].recs ==> tables[0].recs[k] != Deleted
    {
      hide Inv, Accounted, Memtable.Table.Contents, Memtable.Table.Valid, Install, ManifestFor, Merged, ToMap;
      if |tables| <= 1 {
        return;
      }
      ghost var s := Abs();
      var merged := DbLoops.MergeTables(tables, true);
      assert tables[0..|tables|] == tables;
      StoreMerge.MergeRunKeepsInv(s, 0, |tables|);
      MergeRunKeepsFiles(s, 0, |tables|);
      MergedFits(tables, true);
      merge := Some(MergeJob(Run(tables, true), Some([Table(nextSeq, 0, ToMap(merged))]), 0));
      nextSeq := nextSeq + 1;
      assert Abs() == Store.MergeRun(s, 0, |s.ram.value.tables|);
      BuildOutputs();
      CommitMerge();
      WholeRun(s);
    }

    // ----- leveled compaction -----

    method StartLevel(minMerge: nat, budget: nat -> nat, size: Table -> nat, range: Table -> (Key, Key))
      requires Ready() && cfg.leveled && merge == None && minMerge >= 1 && RangesOf(range)
      modifies `merge
      ensures Ready()
      ensures merge == None <==> forall l: nat :: !Quiesce.SourceDue(tables, minMerge, budget, size, l)
      ensures merge.Some? ==> merge.value.plan.Sink? && CanMergeLevel(old(Abs()), merge.value.plan.p)
      ensures merge.Some? ==> Abs() == Store.MergeLevel(old(Abs()), merge.value.plan.p)
      ensures merge.Some? ==> Quiesce.SourceDue(tables, minMerge, budget, size, merge.value.plan.p.src)
    {
      hide Inv, Accounted, Memtable.Table.Contents, Memtable.Table.Valid, IsLevelPick, Quiesce.SourceDue, RangesOf;
      ghost var s := Abs();
      var p := PickLevel(tables, minMerge, budget, size, range);
      if p.Some? {
        StoreMerge.MergeLevelKeepsInv(s, p.value);
        StepKeepsFiles(s, DoMergeLevel(p.value));
        PickFits(tables, p.value);
        merge := Some(MergeJob(Sink(p.value), None, 0));
        assert Abs() == Store.MergeLevel(s, p.value);
      }
    }

    // Off-lock the inputs are merged and cut; then each output gets its number.
    method ReserveOutputs(target: nat)
      requires Ready() && merge.Some? && merge.value.outs == None && merge.value.plan.Sink?
      modifies `merge, `nextSeq
      ensures Ready() && merge.Some? && merge.value.outs.Some?
      ensures CanReserve(old(Abs()), merge.value.outs.value)
      ensures Abs() == Store.Reserve(old(Abs()), merge.value.outs.value)
      ensures CutAt(merge.value.outs.value, merge.value.plan.p, old(nextSeq), target)
    {
      hide Inv, Accounted, Memtable.Table.Contents, Memtable.Table.Valid, IsSplit, Merged, ToMap, Flatten, Ascending,
           FullGroup, Listing;
      ghost var s := Abs();
      var p := merge.value.plan.p;
      var merged := DbLoops.MergeTables(p.Inputs(), p.drop);
      var groups := Split(merged, target);
      GroupsAreSplit(groups, nextSeq, p.Dest());
      var outs := NumberOutputs(groups, nextSeq, p.Dest());
      assert CutAt(outs, p, nextSeq, target);
      assert CanReserve(s, outs);
      StoreMerge.ReserveKeepsInv(s, outs);
      StepKeepsFiles(s, DoReserve(outs));
      MergedFits(p.Inputs(), p.drop);
      SplitFits(outs, p.Dest(), Merged(p.Inputs(), p.drop));
      merge := Some(merge.value.(outs := Some(outs)));
      nextSeq := nextSeq + |outs|;
      assert Abs() == Store.Reserve(s, outs);
    }

    // Filter, append, re-sort; then the manifest, then the inputs become obsolete.
    method CommitLevel(range: Table -> (Key, Key))
      requires Ready() && CanMergeCommit(Abs()) && merge.value.plan.Sink? && RangesOf(range)
      modifies this
      ensures Ready() && Abs() == Store.MergeCommit(old(Abs())) && Objects() == old(Objects())
    {
      hide Inv, Accounted, Memtable.Table.Contents, Memtable.Table.Valid, Without, Reorder, ManifestFor, RangesOf;
      ghost var s := Abs();
      StoreMerge.MergeCommitKeepsInv(s);
      MergeCommitKeepsFiles(s);
      CommitFits(s);
      var inputs := merge.value.plan.p.Inputs();
      var next := RemoveInputs(tables, inputs);
      next := next + merge.value.outs.value;
      tables := SortTables(next, range);
      merge := None;
      garbage := garbage + Ids(inputs);
      WriteManifest();
      assert Memory() == Store.MergeCommit(s).ram.value;
    }

    // One whole leveled compaction: nothing visible changes, and the list moves by one
    // leveled step.
    method CompactLeveled(minMerge: nat, budget: nat -> nat, size: Table -> nat, range: Table -> (Key, Key),
                          target: nat)
      returns (did: bool)
      requires Ready() && cfg.leveled && merge == None && minMerge >= 1 && RangesOf(range)
      modifies this
      ensures Ready() && Objects() == old(Objects()) && merge == None && spec == old(spec)
      ensures did <==> exists l: nat :: Quiesce.SourceDue(old(tables), minMerge, budget, size, l)
      ensures did ==> Quiesce.LevelStep(old(tables), tables, minMerge, budget, size)
      ensures did ==> LeveledInto(old(tables), tables, minMerge, budget, size, old(nextSeq), target)
      ensures !did ==> Abs() == old(Abs())
    {
      hide Inv, Accounted, Memtable.Table.Contents, Memtable.Table.Valid, Commit, ManifestFor, Merged, IsSplit,
           IsLevelPick, Quiesce.SourceDue, RangesOf, CutAt;
      StartLevel(minMerge, budget, size, range);
      if merge == None {
        return false;
      }
      ghost var p := merge.value.plan.p;
      ReserveOutputs(target);
      ghost var outs := merge.value.outs.value;
      assert IsSplit(outs, p.Dest(), Merged(p.Inputs(), p.drop));
      BuildOutputs();
      CommitLevel(range);
      assert tables == Commit(old(tables), p.Inputs(), outs);
      did := true;
    }

    // ----- the compactor's loop -----

    // Runs until no run of tables is eligible; every round leaves fewer tables.
    method CompactTiersUntilDone(bucket: nat -> int, size: Table -> nat, minMerge: nat)
      requires Ready() && !cfg.leveled && merge == None
      modifies this
      ensures Ready() && Objects() == old(Objects()) && merge == None && spec == old(spec)
      ensures NothingEligible(Buckets(tables, bucket, size), minMerge) && |tables| <= |old(tables)|
    {
      hide Inv, Accounted, Memtable.Table.Contents, Memtable.Table.Valid, RamFits, NothingEligible;
      var did := true;
      while did
        invariant Ready() && Objects() == old(Objects()) && merge == None && spec == old(spec)
        invariant !did ==> NothingEligible(Buckets(tables, bucket, size), minMerge)
        invariant |tables| <= |old(tables)|
        decreases |tables|, did
      {
        did := CompactSizeTiered(bucket, size, minMerge);
      }
    }

    // Runs until no level is due. With budgets that grow past every bound and files of
    // bounded size per record it ends.
    method CompactLevelsUntilDone(minMerge: nat, budget: nat -> nat, size: Table -> nat, range: Table -> (Key, Key),
                                  target: nat, ghost c: nat)
      requires Ready() && cfg.leveled && merge == None && minMerge >= 1 && RangesOf(range)
      requires Quiesce.SizesBounded(size, Quiesce.PoolOf(tables), c)
      requires forall l: nat :: budget(l) <= budget(l + 1)
      requires forall x: nat :: Quiesce.Reaches(budget, x)
      modifies this
      ensures Ready() && Objects() == old(Objects()) && merge == None && spec == old(spec)
      ensures forall l: nat :: !Quiesce.SourceDue(tables, minMerge, budget, size, l)
    {
      hide Inv, Accounted, Memtable.Table.Contents, Memtable.Table.Valid, RamFits, RangesOf, Quiesce.SourceDue,
           Quiesce.LevelStep, Quiesce.SizesBounded, Quiesce.Copies, Quiesce.TotalWeight, Quiesce.CoversFrom,
           Quiesce.AllDrawn, WellOrdered, Quiesce.Reaches;
      ghost var pool, copies := Quiesce.PoolOf(tables), Quiesce.Copies(tables);
      Quiesce.GrowingBudgetsSuffice(budget, c * copies);
      ghost var depth: nat :| Quiesce.CoversFrom(budget, depth, c * copies);
      Quiesce.DrawnFromPool(tables);
      LeveledIsOrdered(Abs());
      var did := true;
      while did
        invariant Ready() && Objects() == old(Objects()) && merge == None && spec == old(spec)
        invariant WellOrdered(tables) && Quiesce.AllDrawn(tables, pool) && Quiesce.Copies(tables) <= copies
        invariant !did ==> forall l: nat :: !Quiesce.SourceDue(tables, minMerge, budget, size, l)
        decreases Quiesce.TotalWeight(tables, depth), did
      {
        ghost var before := tables;
        did := CompactLeveled(minMerge, budget, size, range, target);
        if did {
          Quiesce.LevelStepFacts(before, tables, minMerge, budget, size, pool, c, copies, depth);
        }
      }
    }

    // ----- value-log garbage collection -----

    // After its own flush: merges everything, copies the surviving values to the next
    // generation, and swaps tables and generation in one manifest commit. Everything is
    // durable; unless the store is empty one tombstone-free table is left, whose pointers
    // account for every byte of the new generation's log.
    method GcValueLog()
      requires Ready() && merge == None
      modifies Objects()
      ensures Ready() && fresh(Objects() - old(Objects())) && spec == MadeDurable(old(spec)) && merge == None
      ensures mem.Contents() == map[] && flushing == null
      ensures tables == [] <==> old(tables) == [] && old(flushing) == null && old(mem.Contents()) == map[]
      ensures tables == [] ==> gen == old(gen)
      ensures tables != [] ==>
                gen == old(gen) + 1 &&
                StoreGc.OneCompactTable(tables, disk.blobs, gen, PointedBytes(Listing(tables[0].recs)))
    {
      hide Inv, Accounted, Memtable.Table.Contents, Memtable.Table.Valid, RamFits, Listing, PointedBytes,
           StoreGc.Collected, StoreGc.CollectionRuns, EntryBytes, LogsOf;
      FinishFlush();
      FlushLocked(false);
      if tables == [] {
        return;
      }
      Relocate();
    }

    // The collection proper, on a store with an empty memtable.
    method Relocate()
      requires Ready() && CanGcRelocate(Abs())
      modifies this
      ensures Ready() && Objects() == old(Objects())
      ensures StoreGc.CollectionRuns(old(Abs())) && Abs() == StoreGc.Collected(old(Abs()))
      ensures gen == old(gen) + 1 && spec == old(spec) && merge == old(merge)
      ensures mem == old(mem) && flushing == old(flushing)
      ensures StoreGc.OneCompactTable(tables, disk.blobs, gen,
                EntryBytes(Listing(StoreGc.Survivors(old(Abs()))), FromLogs(LogsOf(old(disk)))))
      ensures StoreGc.OneCompactTable(tables, disk.blobs, gen, PointedBytes(Listing(tables[0].recs)))
    {
      hide Inv, Accounted, Memtable.Table.Contents, Memtable.Table.Valid, Listing, ManifestFor, LogsOf, EntryBytes,
           GcRelocate, GcSync, GcBuild, GcCommit, CanGcRelocate, CanGcSync, CanGcBuild, CanGcCommit, Sound,
           StoreGc.OneCompactTable;
      StoreGc.GcLeavesOneCompactTable(Abs());
      CollectionKeepsMerge(Abs());
      CopySurvivors();
      BuildCollected();
      CommitCollected();
    }

    // Copies every surviving separated value to the next generation and repoints it.
    method CopySurvivors()
      requires Ready() && CanGcRelocate(Abs())
      modifies `disk, `nextSeq, `gc, `lock
      ensures Valid() && Abs() == Store.GcRelocate(old(Abs()))
    {
      hide Inv, Accounted, Memtable.Table.Contents, Memtable.Table.Valid, Merged, ToMap, Listing, MoveOut, LogsOf;
      ghost var s := Abs();
      StoreGc.GcRelocateKeepsInv(s);
      GcRelocateKeepsFiles(s);
      MergedFits(tables, true);
      var merged := DbLoops.MergeTables(tables, true);
      var newGen := gen + 1;
      var log := if newGen in disk.blobs then disk.blobs[newGen] else Blob([], 0);
      FitMoves(Merged(tables, true), FromLogs(LogsOf(disk)), newGen, log.bytes);
      var ok, recs, bytes := MoveValues(merged, FromLogs(LogsOf(disk)), newGen, log.bytes);
      assert ok;
      disk := disk.(blobs := disk.blobs[newGen := log.(bytes := bytes)]);
      gc := Some(GcJob(nextSeq, ToMap(recs), Appended));
      nextSeq := nextSeq + 1;
      lock := Collecting;
      assert Abs() == Store.GcRelocate(s);
    }

    // The new log is durable before the table that points into it.
    method BuildCollected()
      requires Valid() && CanGcSync(Abs())
      modifies `disk, `gc
      ensures Valid() && CanGcBuild(Store.GcSync(old(Abs()))) && Abs() == Store.GcBuild(Store.GcSync(old(Abs())))
    {
      hide Inv, Accounted, Memtable.Table.Contents, Memtable.Table.Valid;
      ghost var s := Abs();
      StoreGc.GcSyncKeepsInv(s);
      StepKeepsFiles(s, DoGcSync);
      StoreGc.GcBuildKeepsInv(Store.GcSync(s));
      GcBuildStep(Store.GcSync(s));
      var log := disk.blobs[gen + 1];
      disk := disk.(blobs := disk.blobs[gen + 1 := log.(synced := |log.bytes|)]);
      var job := gc.value;
      disk := disk.(files := disk.files[job.id := job.recs]);
      gc := Some(job.(stage := Built));
      assert Abs() == Store.GcBuild(Store.GcSync(s));
    }

    // Tables and generation change together; the old files become obsolete after.
    method CommitCollected()
      requires Valid() && CanGcCommit(Abs())
      modifies this
      ensures Ready() && Abs() == Store.GcCommit(old(Abs())) && mem == old(mem) && flushing == old(flushing)
    {
      hide Inv, Accounted, Memtable.Table.Contents, Memtable.Table.Valid, ManifestFor;
      ghost var s := Abs();
      StoreGc.GcCommitKeepsInv(s);
      GcCommitKeepsFiles(s);
      var job := gc.value;
      garbage := garbage + Ids(tables);
      oldGens := oldGens + {gen};
      tables := [Table(job.id, 0, job.recs)];
      gen := gen + 1;
      gc := None;
      lock := Free;
      WriteManifest();
      assert Memory() == Store.GcCommit(s).ram.value;
    }
  }
}
