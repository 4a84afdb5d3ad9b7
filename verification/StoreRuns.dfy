// Runs of the store: every interleaving of its steps, with crashes and reopenings, from
// a fresh store.
module StoreRuns {
  import opened Keys
  import opened Records
  import opened Layers
  import opened Leveled
  import opened LeveledCommit
  import opened Store
  import opened StoreInv
  import opened StoreWrites
  import opened StoreFlush
  import opened StoreMerge
  import opened StoreGc
  import opened StoreCrash

  datatype Event =
    | DoWrite(w: Record)
    | DoSync
    | DoSeal
    | DoFlushAppend
    | DoFlushSync
    | DoFlushBuild
    | DoFlushCommit
    | DoDrop
    | DoLockedFlush
    | DoLockedCommit
    | DoTruncate
    | DoMergeRun(i: nat, j: nat)
    | DoMergeLevel(p: LevelPick)
    | DoReserve(outs: seq<Table>)
    | DoMergeBuild
    | DoMergeCommit
    | DoGcRelocate
    | DoGcSync
    | DoGcBuild
    | DoGcCommit
    | DoOpenReader
    | DoCloseReader(i: nat)
    | DoUnlink(id: nat)
    | DoUnlinkLog(g: nat)
    | DoCrash(n: nat, blobs: map<nat, Blob>)
    | DoCleanFile(id: nat)
    | DoCleanLog(g: nat)
    | DoOpen

  ghost predicate Enabled(s: State, e: Event) {
    match e
    case DoWrite(w) => CanWrite(s, w)
    case DoSync => Idle(s)
    case DoSeal => CanSeal(s)
    case DoFlushAppend => CanFlushAppend(s)
    case DoFlushSync => CanFlushSync(s)
    case DoFlushBuild => CanFlushBuild(s)
    case DoFlushCommit => CanFlushCommit(s)
    case DoDrop => CanDrop(s)
    case DoLockedFlush => CanLockedFlush(s)
    case DoLockedCommit => CanLockedCommit(s)
    case DoTruncate => CanTruncate(s)
    case DoMergeRun(i, j) => CanMergeRun(s, i, j)
    case DoMergeLevel(p) => CanMergeLevel(s, p)
    case DoReserve(outs) => CanReserve(s, outs)
    case DoMergeBuild => CanMergeBuild(s)
    case DoMergeCommit => CanMergeCommit(s)
    case DoGcRelocate => CanGcRelocate(s)
    case DoGcSync => CanGcSync(s)
    case DoGcBuild => CanGcBuild(s)
    case DoGcCommit => CanGcCommit(s)
    case DoOpenReader => Idle(s)
    case DoCloseReader(i) => CanCloseReader(s, i)
    case DoUnlink(id) => CanUnlink(s, id)
    case DoUnlinkLog(g) => CanUnlinkLog(s, g)
    case DoCrash(n, blobs) => CanCrash(s, n, blobs)
    case DoCleanFile(id) => CanCleanFile(s, id)
    case DoCleanLog(g) => CanCleanLog(s, g)
    case DoOpen => CanOpen(s)
  }

  ghost function Next(s: State, e: Event): State
    requires Enabled(s, e)
  {
    match e
    case DoWrite(w) => Write(s, w)
    case DoSync => Sync(s)
    case DoSeal => Seal(s)
    case DoFlushAppend => FlushAppend(s)
    case DoFlushSync => FlushSync(s)
    case DoFlushBuild => FlushBuild(s)
    case DoFlushCommit => FlushCommit(s)
    case DoDrop => Drop(s)
    case DoLockedFlush => LockedFlush(s)
    case DoLockedCommit => LockedCommit(s)
    case DoTruncate => Truncate(s)
    case DoMergeRun(i, j) => MergeRun(s, i, j)
    case DoMergeLevel(p) => MergeLevel(s, p)
    case DoReserve(outs) => Reserve(s, outs)
    case DoMergeBuild => MergeBuild(s)
    case DoMergeCommit => MergeCommit(s)
    case DoGcRelocate => GcRelocate(s)
    case DoGcSync => GcSync(s)
    case DoGcBuild => GcBuild(s)
    case DoGcCommit => GcCommit(s)
    case DoOpenReader => OpenReader(s)
    case DoCloseReader(i) => CloseReader(s, i)
    case DoUnlink(id) => Unlink(s, id)
    case DoUnlinkLog(g) => UnlinkLog(s, g)
    case DoCrash(n, blobs) => Crash(s, n, blobs)
    case DoCleanFile(id) => CleanFile(s, id)
    case DoCleanLog(g) => CleanLog(s, g)
    case DoOpen => Open(s)
  }

  // A store directory after its first opening wrote a manifest, with no process running.
  function Fresh(cfg: Config): State {
    State(cfg, Disk(map[], Manifest(0, 0, []), Wal([], 0), None, map[0 := Blob([], 0)]), None,
          Spec(map[], map[], []))
  }

  ghost predicate IsRun(s: State, es: seq<Event>)
    decreases |es|, 0
  {
    es == [] || (IsRun(s, es[..|es| - 1]) && Enabled(After(s, es[..|es| - 1]), es[|es| - 1]))
  }

  ghost function After(s: State, es: seq<Event>): State
    requires IsRun(s, es)
    decreases |es|, 1
  {
    if es == [] then s else Next(After(s, es[..|es| - 1]), es[|es| - 1])
  }

  lemma Extend(s: State, es: seq<Event>, e: Event)
    requires IsRun(s, es) && Enabled(After(s, es), e)
    ensures IsRun(s, es + [e]) && After(s, es + [e]) == Next(After(s, es), e)
  {
    hide Next, Enabled;
    assert (es + [e])[..|es + [e]| - 1] == es;
  }

  lemma FreshInv(cfg: Config)
    ensures Inv(Fresh(cfg))
  {
    hide Less;
    var s := Fresh(cfg);
    forall n: nat, k: Key | s.disk.wal.synced <= n <= |s.disk.wal.recs|
      ensures Admissible(s.spec, k, CrashView(s.disk, n, k))
    {
      assert SealedRecs(s.disk) + s.disk.wal.recs[..n] == [];
      assert ManTables(s.disk) == [];
    }
  }

  lemma StepKeepsInv(s: State, e: Event)
    requires Inv(s) && Enabled(s, e)
    ensures Inv(Next(s, e))
  {
    hide Inv, Write, Sync, Seal, FlushAppend, FlushSync, FlushBuild, FlushCommit, Drop, LockedFlush, LockedCommit,
         Truncate, MergeRun, MergeLevel, Reserve, MergeBuild, MergeCommit, GcRelocate, GcSync, GcBuild, GcCommit,
         OpenReader, CloseReader, Unlink, UnlinkLog, Crash, CleanFile, CleanLog, Open, IsSplit, IsLevelPick;
    match e
    case DoWrite(w) => WriteKeepsInv(s, w);
    case DoSync => SyncKeepsInv(s);
    case DoSeal => SealKeepsInv(s);
    case DoFlushAppend => FlushAppendKeepsInv(s);
    case DoFlushSync => FlushSyncKeepsInv(s);
    case DoFlushBuild => FlushBuildKeepsInv(s);
    case DoFlushCommit => FlushCommitKeepsInv(s);
    case DoDrop => DropKeepsInv(s);
    case DoLockedFlush => LockedFlushKeepsInv(s);
    case DoLockedCommit => LockedCommitKeepsInv(s);
    case DoTruncate => TruncateKeepsInv(s);
    case DoMergeRun(i, j) => MergeRunKeepsInv(s, i, j);
    case DoMergeLevel(p) => MergeLevelKeepsInv(s, p);
    case DoReserve(outs) => ReserveKeepsInv(s, outs);
    case DoMergeBuild => MergeBuildKeepsInv(s);
    case DoMergeCommit => MergeCommitKeepsInv(s);
    case DoGcRelocate => GcRelocateKeepsInv(s);
    case DoGcSync => GcSyncKeepsInv(s);
    case DoGcBuild => GcBuildKeepsInv(s);
    case DoGcCommit => GcCommitKeepsInv(s);
    case DoOpenReader => OpenReaderKeepsInv(s);
    case DoCloseReader(i) => CloseReaderKeepsInv(s, i);
    case DoUnlink(id) => UnlinkKeepsInv(s, id);
    case DoUnlinkLog(g) => UnlinkLogKeepsInv(s, g);
    case DoCrash(n, blobs) => CrashKeepsInv(s, n, blobs);
    case DoCleanFile(id) => CleanFileKeepsInv(s, id);
    case DoCleanLog(g) => CleanLogKeepsInv(s, g);
    case DoOpen => OpenKeepsInv(s);
  }

  lemma {:induction false} RunKeepsInv(s: State, es: seq<Event>)
    requires Inv(s) && IsRun(s, es)
    ensures Inv(After(s, es))
  {
    hide Inv, Next, Enabled;
    if es != [] {
      RunKeepsInv(s, es[..|es| - 1]);
      StepKeepsInv(After(s, es[..|es| - 1]), es[|es| - 1]);
    }
  }

  // ----- how the specification moves -----

  // The plain map changes only when something is written or a process reopens; the
  // durable point moves when the log is synced and when a synchronous flush completes.
  ghost predicate SpecStep(sp: Spec, e: Event, sp': Spec) {
    match e
    case DoWrite(w) => sp' == Spec(Written(sp.now, w), sp.durable, sp.since + [w])
    case DoSync => sp' == Spec(sp.now, sp.now, [])
    case DoTruncate => sp' == Spec(sp.now, sp.now, [])
    case DoOpen => AllowsLess(sp', sp) && forall k :: Admissible(sp, k, AnswerOf(sp'.now, k))
    case _ => sp' == sp
  }

  lemma StepFollowsSpec(s: State, e: Event)
    requires Inv(s) && Enabled(s, e)
    ensures SpecStep(s.spec, e, Next(s, e).spec)
  {
    hide Admissible, Recovered, ManifestFor, AppendedTo, Less, IsSplit, IsLevelPick, CrashOk, RamOk, DiskOk, Kept,
         AllowsLess;
    if e == DoOpen {
      OpenKeepsDisk(s);
      ReopenedAllowsLess(s.cfg, Open(s).disk, s.spec);
      forall k ensures Admissible(s.spec, k, AnswerOf(Next(s, e).spec.now, k)) {
        RecoveredAnswers(s.cfg, Open(s).disk, s.spec, k);
      }
    }
  }

  // What get(k) computes in a running state.
  function Get(s: State, k: Key): Answer
    requires Up(s)
  {
    View(Upper(s.ram.value), s.ram.value.tables, LogsOf(s.disk), k)
  }

  // Refinement over whole runs: in every running state of every interleaving, with any
  // number of crashes before it, a get returns what the plain map holds, and the run's
  // specification states form a path of SpecStep.
  lemma {:induction false} RunRefinesPlainMap(cfg: Config, es: seq<Event>)
    requires IsRun(Fresh(cfg), es)
    ensures Up(After(Fresh(cfg), es)) ==>
              forall k :: Get(After(Fresh(cfg), es), k) == AnswerOf(After(Fresh(cfg), es).spec.now, k)
    ensures es != [] ==>
              SpecStep(After(Fresh(cfg), es[..|es| - 1]).spec, es[|es| - 1], After(Fresh(cfg), es).spec)
  {
    hide Next, Enabled, SpecStep, DiskOk, CrashOk, View;
    var s := Fresh(cfg);
    FreshInv(cfg);
    RunKeepsInv(s, es);
    if es != [] {
      RunKeepsInv(s, es[..|es| - 1]);
      StepFollowsSpec(After(s, es[..|es| - 1]), es[|es| - 1]);
    }
  }

  // ----- readers -----

  // Every read still in progress was opened at some instant of the run, and whatever
  // flushes, merges, collections and unlinks happened since, it still answers every key
  // as the plain map did at that instant, from files that still exist.
  ghost predicate OpenedAt(s: State, es: seq<Event>, i: nat, rd: Reader)
    requires IsRun(s, es)
  {
    && i < |es| && IsRun(s, es[..i]) && es[i] == DoOpenReader
    && Up(After(s, es[..i])) && rd == Snapshot(After(s, es[..i]))
  }

  // The snapshot a read takes under the lock.
  function Snapshot(s: State): Reader
    requires Up(s)
  {
    Reader(Upper(s.ram.value), s.ram.value.tables, s.ram.value.gen, s.spec.now)
  }

  lemma StepReaders(s: State, e: Event, rd: Reader)
    requires Enabled(s, e) && Up(Next(s, e)) && rd in Next(s, e).ram.value.readers
    ensures Up(s)
    ensures rd in s.ram.value.readers || (e == DoOpenReader && rd == Snapshot(s))
  {
    hide Next, Enabled;
    match e
    case DoWrite(_) | DoSync | DoSeal | DoFlushAppend | DoFlushSync | DoFlushBuild | DoFlushCommit | DoDrop
       | DoLockedFlush | DoLockedCommit | DoTruncate => FlushStepReaders(s, e);
    case DoMergeRun(_, _) | DoMergeLevel(_) | DoReserve(_) | DoMergeBuild | DoMergeCommit | DoGcRelocate | DoGcSync
       | DoGcBuild | DoGcCommit => MergeStepReaders(s, e);
    case DoOpen | DoCrash(_, _) | DoCleanFile(_) | DoCleanLog(_) => DownStepReaders(s, e);
    case _ => OtherStepReaders(s, e, rd);
  }

  lemma FlushStepReaders(s: State, e: Event)
    requires Enabled(s, e) && (e.DoWrite? || e.DoSync? || e.DoSeal? || e.DoFlushAppend? || e.DoFlushSync?
               || e.DoFlushBuild? || e.DoFlushCommit? || e.DoDrop? || e.DoLockedFlush?
               || e.DoLockedCommit? || e.DoTruncate?)
    ensures Up(s) && Up(Next(s, e)) && Next(s, e).ram.value.readers == s.ram.value.readers
  {
    hide Less, ManifestFor, AppendedTo, Written;
  }

  lemma MergeStepReaders(s: State, e: Event)
    requires Enabled(s, e) && (e.DoMergeRun? || e.DoMergeLevel? || e.DoReserve? || e.DoMergeBuild? || e.DoMergeCommit?
               || e.DoGcRelocate? || e.DoGcSync? || e.DoGcBuild? || e.DoGcCommit?)
    ensures Up(s) && Up(Next(s, e)) && Next(s, e).ram.value.readers == s.ram.value.readers
  {
    hide Less, ManifestFor, IsSplit, IsLevelPick, MergedBy, Commit, Install, Ids, Merged;
  }

  lemma OtherStepReaders(s: State, e: Event, rd: Reader)
    requires Enabled(s, e) && Up(Next(s, e)) && rd in Next(s, e).ram.value.readers
    requires e.DoOpenReader? || e.DoCloseReader? || e.DoUnlink? || e.DoUnlinkLog?
    ensures Up(s)
    ensures rd in s.ram.value.readers || (e == DoOpenReader && rd == Snapshot(s))
  {
    hide Less, Upper, Ids;
  }

  lemma DownStepReaders(s: State, e: Event)
    requires Enabled(s, e) && (e.DoCrash? || e.DoCleanFile? || e.DoCleanLog? || e.DoOpen?)
    ensures Up(Next(s, e)) ==> Next(s, e).ram.value.readers == []
  {
    hide Less, Recovered, ToMap, ManTables;
  }

  lemma {:induction false} ReaderHasInstant(s: State, es: seq<Event>, rd: Reader) returns (i: nat)
    requires IsRun(s, es) && !Up(s)
    requires Up(After(s, es)) && rd in After(s, es).ram.value.readers
    ensures OpenedAt(s, es, i, rd)
  {
    hide Next, Enabled;
    var before := es[..|es| - 1];
    var e := es[|es| - 1];
    StepReaders(After(s, before), e, rd);
    if rd in After(s, before).ram.value.readers {
      i := ReaderHasInstant(s, before, rd);
      assert before[..i] == es[..i];
    } else {
      i := |es| - 1;
    }
  }

  lemma ReadersSeeTheirInstant(cfg: Config, es: seq<Event>, rd: Reader) returns (i: nat)
    requires IsRun(Fresh(cfg), es)
    requires Up(After(Fresh(cfg), es)) && rd in After(Fresh(cfg), es).ram.value.readers
    ensures OpenedAt(Fresh(cfg), es, i, rd)
    ensures var s := After(Fresh(cfg), es);
            && Backed(rd.tables, s.disk.files) && rd.gen in s.disk.blobs
            && AllSound(rd.tables, rd.gen, |s.disk.blobs[rd.gen].bytes|)
            && forall k :: View(rd.upper, rd.tables, LogsOf(s.disk), k) == AnswerOf(rd.want, k)
  {
    hide Next, Enabled, OpenedAt, View, DiskOk, CrashOk;
    FreshInv(cfg);
    RunKeepsInv(Fresh(cfg), es);
    i := ReaderHasInstant(Fresh(cfg), es, rd);
    assert ReaderOk(rd, After(Fresh(cfg), es).ram.value, After(Fresh(cfg), es).disk);
  }

  // ----- crashes -----

  // A crash at any point of any run, whatever it leaves of the logs, followed by a
  // reopening: every key, deleted ones included, reads as the effect of some write no
  // older than its last durable one.
  lemma CrashRecoversEveryKey(cfg: Config, es: seq<Event>, n: nat, blobs: map<nat, Blob>, k: Key)
    requires IsRun(Fresh(cfg), es) && CanCrash(After(Fresh(cfg), es), n, blobs)
    ensures var s := After(Fresh(cfg), es);
            var s' := Open(Crash(s, n, blobs));
            Get(s', k) == AnswerOf(s'.spec.now, k) && Admissible(s.spec, k, Get(s', k))
  {
    hide Next, Enabled, DiskOk, CrashOk, View, Admissible, Recovered, CanCrash;
    var s := After(Fresh(cfg), es);
    FreshInv(cfg);
    RunKeepsInv(Fresh(cfg), es);
    CrashKeepsInv(s, n, blobs);
    var s1 := Crash(s, n, blobs);
    OpenAnswers(s1, k);
  }

  // What a process reads after a crash is what the surviving records and bytes say.
  lemma ReopeningReads(s: State, n: nat, blobs: map<nat, Blob>, k: Key)
    requires Inv(s) && CanCrash(s, n, blobs)
    ensures Get(Open(Crash(s, n, blobs)), k) == CrashView(s.disk, n, k)
  {
    hide Less, WellOrdered, RamOk, CrashOk, Recovered, View;
    var s1 := Crash(s, n, blobs);
    CrashKeepsInv(s, n, blobs);
    OpenKeepsDisk(s1);
    var d, d' := s.disk, Open(s1).disk;
    var gen := d.man.gen;
    var left := SealedRecs(d) + d.wal.recs[..n];
    PlainReplay(left);
    assert LogsAgree(LogsOf(d), LogsOf(d'), gen, d.blobs[gen].synced);
    ViewAgrees(ToMap(left), ManTables(d), LogsOf(d), LogsOf(d'), gen, d.blobs[gen].synced, k);
    assert ManTables(s1.disk) == ManTables(d);
    assert Upper(Open(s1).ram.value) == ToMap(left);
  }

  lemma OpenAnswers(s: State, k: Key)
    requires Inv(s) && CanOpen(s)
    ensures Get(Open(s), k) == AnswerOf(Open(s).spec.now, k)
    ensures Admissible(s.spec, k, Get(Open(s), k))
  {
    hide DiskOk, CrashOk, View, Admissible, Recovered;
    OpenKeepsDisk(s);
    OpenIsLive(s);
    RecoveredAnswers(s.cfg, Open(s).disk, s.spec, k);
  }

  // ----- files and pointers -----

  // In every state of every run, at every crash point: each file the manifest names
  // exists, the numbers it names are distinct and below its next number, and each
  // separated record it names lies in the durable part of the generation it names.
  lemma ManifestIsAlwaysSafe(cfg: Config, es: seq<Event>)
    requires IsRun(Fresh(cfg), es)
    ensures var d := After(Fresh(cfg), es).disk;
            && (forall l :: l in d.man.tables ==> l.id in d.files && l.id < d.man.nextId)
            && (forall i, j :: 0 <= i < j < |d.man.tables| ==> d.man.tables[i].id != d.man.tables[j].id)
            && d.man.gen in d.blobs
            && AllSound(ManTables(d), d.man.gen, d.blobs[d.man.gen].synced)
  {
    hide Next, Enabled, CrashOk, RamOk, WellOrdered, AllSound;
    FreshInv(cfg);
    RunKeepsInv(Fresh(cfg), es);
    var d := After(Fresh(cfg), es).disk;
    forall i | 0 <= i < |d.man.tables| ensures d.man.tables[i].id < d.man.nextId {
      assert ManTables(d)[i] in ManTables(d);
    }
    forall i, j | 0 <= i < j < |d.man.tables| ensures d.man.tables[i].id != d.man.tables[j].id {
      assert ManTables(d)[i].id != ManTables(d)[j].id;
    }
  }

  // A file about to be written never has the number of a live table, of a table a reader
  // holds, or of an obsolete file still awaiting its unlink.
  lemma NewFilesNeverCollide(cfg: Config, es: seq<Event>)
    requires IsRun(Fresh(cfg), es) && Up(After(Fresh(cfg), es))
    ensures var r := After(Fresh(cfg), es).ram.value;
            && (r.flush.Some? ==> Unused(r, r.flush.value.id) && ReadersAvoid(r, r.flush.value.id))
            && (r.gc.Some? ==> Unused(r, r.gc.value.id) && ReadersAvoid(r, r.gc.value.id))
            && (r.merge.Some? && r.merge.value.outs.Some? ==>
                  forall o :: o in r.merge.value.outs.value ==> Unused(r, o.id) && ReadersAvoid(r, o.id))
  {
    hide Next, Enabled, CrashOk, DiskOk, Live, MemOk, FlushOk, MergeOk, GcOk;
    FreshInv(cfg);
    RunKeepsInv(Fresh(cfg), es);
    var s := After(Fresh(cfg), es);
    var r := s.ram.value;
    forall id | Unused(r, id) ensures ReadersAvoid(r, id) {
      UnusedAvoidsReaders(r, s.disk, id);
    }
  }

  ghost predicate ReadersAvoid(r: Ram, id: nat) {
    forall rd :: rd in r.readers ==> NoneHas(rd.tables, id)
  }

  lemma UnusedAvoidsReaders(r: Ram, d: Disk, id: nat)
    requires ReadersOk(r, d) && Unused(r, id)
    ensures ReadersAvoid(r, id)
  {
    hide Live, AllSound;
    forall rd | rd in r.readers ensures NoneHas(rd.tables, id) {
      assert ReaderOk(rd, r, d);
    }
  }

  // ----- the leveled order -----

  // In every state of every leveled run: level 0 is in strictly decreasing order of file
  // number, the tables of each deeper level have pairwise disjoint key ranges, and a
  // sealed memtable's reserved number exceeds every number in level 0.
  lemma LeveledShape(cfg: Config, es: seq<Event>)
    requires IsRun(Fresh(cfg), es) && cfg.leveled && Up(After(Fresh(cfg), es))
    ensures var r := After(Fresh(cfg), es).ram.value;
            && (forall i, j :: 0 <= i < j < |r.tables| && r.tables[i].level == r.tables[j].level == 0 ==>
                  r.tables[i].id > r.tables[j].id)
            && (forall i, j :: 0 <= i < j < |r.tables| && r.tables[i].level == r.tables[j].level > 0 ==>
                  Less(MaxKey(r.tables[i]), MinKey(r.tables[j])))
            && (r.sealed.Some? ==> YoungerThanL0(r.tables, r.sealed.value.id))
  {
    hide Next, Enabled, CrashOk, Live, MemOk, FlushOk, MergeOk, GcOk, ReadersOk, Less;
    FreshInv(cfg);
    RunKeepsInv(Fresh(cfg), es);
    ConfigIsFixed(Fresh(cfg), es);
    var r := After(Fresh(cfg), es).ram.value;
    assert forall i, j :: 0 <= i < j < |r.tables| ==> Precedes(r.tables[i], r.tables[j]);
  }

  lemma {:induction false} ConfigIsFixed(s: State, es: seq<Event>)
    requires IsRun(s, es)
    ensures After(s, es).cfg == s.cfg
  {
    hide Next, Enabled;
    if es != [] {
      ConfigIsFixed(s, es[..|es| - 1]);
      StepKeepsConfig(After(s, es[..|es| - 1]), es[|es| - 1]);
    }
  }

  lemma StepKeepsConfig(s: State, e: Event)
    requires Enabled(s, e)
    ensures Next(s, e).cfg == s.cfg
  {
    hide Less, Recovered, ManifestFor, AppendedTo, IsSplit, IsLevelPick;
  }
}
