// Which files are on disk. In every running state the table files are those of the live
// tables, of the obsolete ones not yet unlinked and of the outputs already written, and
// nothing else; likewise the value logs. Whatever is obsolete can be removed.
module StoreFiles {
  import opened Keys
  import opened Records
  import opened Layers
  import opened Leveled
  import opened LeveledCommit
  import opened Store
  import opened StoreInv
  import opened StoreMerge
  import opened StoreCrash
  import opened StoreRuns

  function FlushFile(job: Option<FlushJob>): set<nat> {
    if job.Some? && job.value.stage == Built then {job.value.id} else {}
  }

  function MergeFiles(job: Option<MergeJob>): set<nat> {
    if job.Some? && job.value.outs.Some? && job.value.built <= |job.value.outs.value|
    then Ids(job.value.outs.value[..job.value.built])
    else {}
  }

  function GcFile(job: Option<GcJob>): set<nat> {
    if job.Some? && job.value.stage == Built then {job.value.id} else {}
  }

  function KnownFiles(r: Ram): set<nat> {
    Ids(r.tables) + r.garbage + FlushFile(r.flush) + MergeFiles(r.merge) + GcFile(r.gc)
  }

  function KnownLogs(r: Ram): set<nat> {
    {r.gen} + r.oldGens + (if r.gc.Some? then {r.gen + 1} else {})
  }

  ghost predicate Accounted(s: State) {
    Up(s) ==> s.disk.files.Keys == KnownFiles(s.ram.value) && s.disk.blobs.Keys == KnownLogs(s.ram.value)
  }

  // ----- steps -----

  lemma BuildStep(s: State, e: Event)
    requires Enabled(s, e) && Accounted(s) && (e.DoFlushBuild? || e.DoMergeBuild? || e.DoGcBuild?)
    ensures Accounted(Next(s, e))
  {
    hide FlushBuild, MergeBuild, GcBuild, CanFlushBuild, CanMergeBuild, CanGcBuild, Accounted;
    match e
    case DoFlushBuild => FlushBuildStep(s);
    case DoMergeBuild => MergeBuildStep(s);
    case DoGcBuild => GcBuildStep(s);
  }

  lemma FlushBuildStep(s: State)
    requires CanFlushBuild(s) && Accounted(s)
    ensures Accounted(FlushBuild(s))
  {
    hide Ids, MergeFiles;
    assert FlushBuild(s).disk.files.Keys == KnownFiles(FlushBuild(s).ram.value);
  }

  lemma MergeBuildStep(s: State)
    requires CanMergeBuild(s) && Accounted(s)
    ensures Accounted(MergeBuild(s))
  {
    hide Ids, MergeFiles;
    OneMoreBuilt(s.ram.value.merge.value);
    assert MergeBuild(s).disk.files.Keys == KnownFiles(MergeBuild(s).ram.value);
  }

  lemma GcBuildStep(s: State)
    requires CanGcBuild(s) && Accounted(s)
    ensures Accounted(GcBuild(s))
  {
    hide Ids, MergeFiles;
    assert GcBuild(s).disk.files.Keys == KnownFiles(GcBuild(s).ram.value);
  }

  lemma OneMoreBuilt(job: MergeJob)
    requires job.outs.Some? && job.built < |job.outs.value|
    ensures MergeFiles(Some(job.(built := job.built + 1))) ==
            MergeFiles(Some(job)) + {job.outs.value[job.built].id}
  {
    var outs, n := job.outs.value, job.built;
    assert outs[..n + 1] == outs[..n] + [outs[n]];
  }

  lemma FlushCommitStep(s: State, e: Event)
    requires Inv(s) && Enabled(s, e) && Accounted(s) && (e.DoFlushCommit? || e.DoLockedCommit?)
    ensures Accounted(Next(s, e))
  {
    hide Inv, Ids, MergeFiles, GcFile, ManifestFor;
    var r, r' := s.ram.value, Next(s, e).ram.value;
    PrependIds(Table(r.flush.value.id, 0, r.flush.value.recs), r.tables);
    assert s.disk.files.Keys == KnownFiles(r');
  }

  lemma PrependIds(t: Table, tables: seq<Table>)
    ensures Ids([t] + tables) == {t.id} + Ids(tables)
  {
    var all := [t] + tables;
    assert all[0] == t && all[1..] == tables;
    forall u | u in tables ensures u in all {
    }
  }

  lemma MergeCommitStep(s: State)
    requires Inv(s) && CanMergeCommit(s) && Accounted(s)
    ensures Accounted(MergeCommit(s))
  {
    hide Inv, Ids, Install, Commit, ManifestFor, FlushFile, GcFile;
    var r, r' := s.ram.value, MergeCommit(s).ram.value;
    var inputs, outs := InputsOf(r.merge.value.plan), r.merge.value.outs.value;
    CommittedIds(s);
    assert r'.tables == NextTables(r);
    assert MergeFiles(r.merge) == Ids(outs) by {
      assert outs[..|outs|] == outs;
    }
    assert s.disk.files.Keys == KnownFiles(r');
  }

  lemma CommittedIds(s: State)
    requires Inv(s) && CanMergeCommit(s)
    ensures var job := s.ram.value.merge.value;
            Ids(NextTables(s.ram.value)) + Ids(InputsOf(job.plan)) == Ids(s.ram.value.tables) + Ids(job.outs.value)
  {
    hide Less, WellOrdered, CrashOk, MemOk, FlushOk, GcOk, IdsOk, ReadersOk, Live, Install, Commit, IsSplit, Merged,
         SameVisible, ManifestFor, GensOk, Ids, NextTables, InputsOf, MergedBy;
    var r := s.ram.value;
    CommitIsSound(s.cfg, r);
    NextIds(r.tables, InputsOf(r.merge.value.plan), r.merge.value.outs.value, NextTables(r));
  }

  lemma NextIds(tables: seq<Table>, inputs: seq<Table>, outs: seq<Table>, next: seq<Table>)
    requires forall t :: t in next <==> (t in tables && t !in inputs) || t in outs
    requires forall t :: t in inputs ==> t in tables
    ensures Ids(next) + Ids(inputs) == Ids(tables) + Ids(outs)
  {
    forall t | t in tables ensures t.id in Ids(next) + Ids(inputs) {
      assert t in inputs || t in next;
    }
  }

  lemma GcStep(s: State, e: Event)
    requires Inv(s) && Enabled(s, e) && Accounted(s) && (e.DoGcRelocate? || e.DoGcCommit?)
    ensures Accounted(Next(s, e))
  {
    hide Inv, ManifestFor, Merged, ValueLog.MoveTable, Ids, FlushFile, MergeFiles;
    var r, r' := s.ram.value, Next(s, e).ram.value;
    if e.DoGcCommit? {
      PrependIds(Table(r.gc.value.id, 0, r.gc.value.recs), []);
      NoIds();
      assert r'.tables == r'.tables + [];
    } else {
      FreeMeansNoGc(s);
    }
    assert Next(s, e).disk.files.Keys == KnownFiles(r') && Next(s, e).disk.blobs.Keys == KnownLogs(r');
  }

  lemma NoIds()
    ensures Ids([]) == {}
  {
  }

  lemma UnlinkStep(s: State, e: Event)
    requires Inv(s) && Enabled(s, e) && Accounted(s) && (e.DoUnlink? || e.DoUnlinkLog?)
    ensures Accounted(Next(s, e))
  {
    hide Inv, Ids, FlushFile, MergeFiles, GcFile;
    var r' := Next(s, e).ram.value;
    GarbageIsApart(s);
    assert Next(s, e).disk.files.Keys == KnownFiles(r') && Next(s, e).disk.blobs.Keys == KnownLogs(r');
  }

  lemma GarbageIsApart(s: State)
    requires Inv(s) && Up(s)
    ensures var r := s.ram.value;
            && r.garbage !! Ids(r.tables) + FlushFile(r.flush) + MergeFiles(r.merge) + GcFile(r.gc)
            && forall g :: g in r.oldGens ==> g < r.gen
  {
    hide DiskOk, CrashOk, Live, MemOk, FlushOk, GcOk, ReadersOk, PlanOk, OutsOk, Backed, View;
    var r := s.ram.value;
    forall id | id in r.garbage ensures id !in Ids(r.tables) + MergeFiles(r.merge) {
      assert NoneHas(r.tables, id);
    }
  }

  lemma OpenStep(s: State)
    requires Inv(s) && CanOpen(s)
    ensures Accounted(Open(s))
  {
    hide Less, WellOrdered, CrashOk, Recovered, Kept, ToMap;
    OpenKeepsDisk(s);
    var r := Open(s).ram.value;
    ListedIds(s.disk);
    assert Ids(r.tables) == set l | l in s.disk.man.tables :: l.id;
    assert Open(s).disk.files.Keys == KnownFiles(r) && Open(s).disk.blobs.Keys == KnownLogs(r);
  }

  lemma ListedIds(d: Disk)
    ensures Ids(ManTables(d)) == set l | l in d.man.tables :: l.id
  {
    var ts := ManTables(d);
    forall id | id in Ids(ts) ensures exists l :: l in d.man.tables && l.id == id {
      var i :| 0 <= i < |ts| && ts[i].id == id;
      assert d.man.tables[i] in d.man.tables;
    }
    forall l | l in d.man.tables ensures l.id in Ids(ts) {
      var i :| 0 <= i < |d.man.tables| && d.man.tables[i] == l;
      assert ts[i] in ts;
    }
  }

  lemma FlushSteps(s: State, e: Event)
    requires Enabled(s, e) && Accounted(s)
    requires e.DoFlushAppend? || e.DoFlushSync? || e.DoLockedFlush? || e.DoGcSync?
    ensures Accounted(Next(s, e))
  {
    hide ValueLog.MoveTable, AnySeparated, Ids, MergeFiles;
    assert Next(s, e).disk.blobs.Keys == s.disk.blobs.Keys;
  }

  lemma MergeStarts(s: State, e: Event)
    requires Inv(s) && Enabled(s, e) && Accounted(s) && (e.DoMergeRun? || e.DoMergeLevel? || e.DoReserve?)
    ensures Accounted(Next(s, e))
  {
    hide Inv, IsSplit, IsLevelPick, MergedBy, Ids, FlushFile, GcFile;
    NothingBuilt(s);
    NoIds();
  }

  lemma NothingBuilt(s: State)
    requires Inv(s) && Up(s)
    ensures s.ram.value.merge.Some? && s.ram.value.merge.value.outs == None ==> s.ram.value.merge.value.built == 0
  {
    hide DiskOk, CrashOk, Live, MemOk, FlushOk, GcOk, ReadersOk, PlanOk, IdsOk, GensOk;
  }

  lemma QuietStep(s: State, e: Event)
    requires Enabled(s, e) && Accounted(s)
    requires e.DoWrite? || e.DoSync? || e.DoSeal? || e.DoDrop? || e.DoTruncate? || e.DoOpenReader? || e.DoCloseReader?
    ensures Accounted(Next(s, e))
  {
    hide Upper, Written, Ids, FlushFile, MergeFiles, GcFile;
  }

  lemma StepKeepsFiles(s: State, e: Event)
    requires Inv(s) && Enabled(s, e) && Accounted(s)
    ensures Accounted(Next(s, e))
  {
    hide Inv, Next, Enabled, Accounted;
    match e
    case DoFlushBuild | DoMergeBuild | DoGcBuild => BuildStep(s, e);
    case DoFlushCommit | DoLockedCommit => FlushCommitStep(s, e);
    case DoMergeCommit => MergeCommitEvent(s);
    case DoGcRelocate | DoGcCommit => GcStep(s, e);
    case DoUnlink(_) | DoUnlinkLog(_) => UnlinkStep(s, e);
    case DoFlushAppend | DoFlushSync | DoLockedFlush | DoGcSync => FlushSteps(s, e);
    case DoMergeRun(_, _) | DoMergeLevel(_) | DoReserve(_) => MergeStarts(s, e);
    case DoCrash(_, _) | DoCleanFile(_) | DoCleanLog(_) | DoOpen => DownStep(s, e);
    case _ => QuietStep(s, e);
  }

  lemma MergeCommitEvent(s: State)
    requires Inv(s) && Enabled(s, DoMergeCommit) && Accounted(s)
    ensures Accounted(Next(s, DoMergeCommit))
  {
    hide Inv, MergeCommit, Accounted;
    MergeCommitStep(s);
  }

  lemma DownStep(s: State, e: Event)
    requires Inv(s) && Enabled(s, e) && (e.DoCrash? || e.DoCleanFile? || e.DoCleanLog? || e.DoOpen?)
    ensures Accounted(Next(s, e))
  {
    hide Inv, Open, KnownFiles, KnownLogs;
    if e.DoOpen? {
      OpenStep(s);
    }
  }

  // The same, step by step, for the operations of the object.
  lemma WriteKeepsFiles(s: State, w: Record)
    requires Inv(s) && CanWrite(s, w) && Accounted(s)
    ensures Accounted(Write(s, w))
  {
    hide Inv, Accounted, Write, CanWrite;
    StepKeepsFiles(s, DoWrite(w));
  }

  lemma SyncKeepsFiles(s: State)
    requires Inv(s) && Idle(s) && Accounted(s)
    ensures Accounted(Sync(s))
  {
    hide Inv, Accounted, Sync;
    StepKeepsFiles(s, DoSync);
  }

  lemma SealKeepsFiles(s: State)
    requires Inv(s) && CanSeal(s) && Accounted(s)
    ensures Accounted(Seal(s))
  {
    hide Inv, Accounted, Seal, CanSeal;
    StepKeepsFiles(s, DoSeal);
  }

  lemma FlushAppendKeepsFiles(s: State)
    requires Inv(s) && CanFlushAppend(s) && Accounted(s)
    ensures Accounted(FlushAppend(s))
  {
    hide Inv, Accounted, FlushAppend, CanFlushAppend;
    StepKeepsFiles(s, DoFlushAppend);
  }

  lemma LockedFlushKeepsFiles(s: State)
    requires Inv(s) && CanLockedFlush(s) && Accounted(s)
    ensures Accounted(LockedFlush(s))
  {
    hide Inv, Accounted, LockedFlush, CanLockedFlush;
    StepKeepsFiles(s, DoLockedFlush);
  }

  lemma LockedCommitKeepsFiles(s: State)
    requires Inv(s) && CanLockedCommit(s) && Accounted(s)
    ensures Accounted(LockedCommit(s))
  {
    hide Inv, Accounted, LockedCommit, CanLockedCommit;
    StepKeepsFiles(s, DoLockedCommit);
  }

  lemma MergeRunKeepsFiles(s: State, i: nat, j: nat)
    requires Inv(s) && CanMergeRun(s, i, j) && Accounted(s)
    ensures Accounted(MergeRun(s, i, j))
  {
    hide Inv, Accounted, MergeRun, CanMergeRun;
    StepKeepsFiles(s, DoMergeRun(i, j));
  }

  lemma MergeCommitKeepsFiles(s: State)
    requires Inv(s) && CanMergeCommit(s) && Accounted(s)
    ensures Accounted(MergeCommit(s))
  {
    hide Inv, Accounted, MergeCommit, CanMergeCommit;
    StepKeepsFiles(s, DoMergeCommit);
  }

  lemma GcRelocateKeepsFiles(s: State)
    requires Inv(s) && CanGcRelocate(s) && Accounted(s)
    ensures Accounted(GcRelocate(s))
  {
    hide Inv, Accounted, GcRelocate, CanGcRelocate;
    StepKeepsFiles(s, DoGcRelocate);
  }

  lemma GcCommitKeepsFiles(s: State)
    requires Inv(s) && CanGcCommit(s) && Accounted(s)
    ensures Accounted(GcCommit(s))
  {
    hide Inv, Accounted, GcCommit, CanGcCommit;
    StepKeepsFiles(s, DoGcCommit);
  }

  lemma {:induction false} RunKeepsFiles(cfg: Config, es: seq<Event>)
    requires IsRun(Fresh(cfg), es)
    ensures Accounted(After(Fresh(cfg), es))
  {
    hide Inv, Next, Enabled, Accounted;
    if es == [] {
      assert Accounted(Fresh(cfg)) by {
        FreshIsDown(cfg);
      }
    } else {
      var before := es[..|es| - 1];
      RunKeepsFiles(cfg, before);
      FreshInv(cfg);
      RunKeepsInv(Fresh(cfg), before);
      StepKeepsFiles(After(Fresh(cfg), before), es[|es| - 1]);
    }
  }

  lemma FreshIsDown(cfg: Config)
    ensures Accounted(Fresh(cfg))
  {
  }

  // ----- over whole runs -----

  // No file is forgotten and none is missing, in every running state of every run.
  lemma FilesAreAccountedFor(cfg: Config, es: seq<Event>)
    requires IsRun(Fresh(cfg), es) && Up(After(Fresh(cfg), es))
    ensures var s := After(Fresh(cfg), es);
            var r := s.ram.value;
            && s.disk.files.Keys == Ids(r.tables) + r.garbage + FlushFile(r.flush) + MergeFiles(r.merge) + GcFile(r.gc)
            && s.disk.blobs.Keys == {r.gen} + r.oldGens + (if r.gc.Some? then {r.gen + 1} else {})
  {
    hide Next, Enabled, FlushFile, MergeFiles, GcFile;
    RunKeepsFiles(cfg, es);
  }

  // How many files a step sets out to write.
  function FilesPlanned(e: Event): nat {
    match e
    case DoSeal | DoLockedFlush | DoMergeRun(_, _) | DoGcRelocate => 1
    case DoReserve(outs) => |outs|
    case _ => 0
  }

  // Each planned file takes the next number, and no number is passed over: while the
  // process runs, and from the last commit's number after a reopening.
  lemma NumbersAreTakenInOrder(s: State, e: Event)
    requires Enabled(s, e) && Up(Next(s, e))
    ensures var r' := Next(s, e).ram.value;
            && r'.nextId == (if Up(s) then s.ram.value.nextId else s.disk.man.nextId) + FilesPlanned(e)
            && (e.DoSeal? ==> r'.sealed.Some? && r'.sealed.value.id == r'.nextId - 1)
            && (e.DoLockedFlush? ==> r'.flush.Some? && r'.flush.value.id == r'.nextId - 1)
            && (e.DoGcRelocate? ==> r'.gc.Some? && r'.gc.value.id == r'.nextId - 1)
            && (e.DoMergeRun? || e.DoReserve? ==>
                  && r'.merge.Some? && r'.merge.value.outs.Some?
                  && var outs := r'.merge.value.outs.value;
                     && |outs| == FilesPlanned(e)
                     && forall i :: 0 <= i < |outs| ==> outs[i].id == r'.nextId - |outs| + i)
  {
    hide Less, ManifestFor, AppendedTo, IsSplit, IsLevelPick, MergedBy, Commit, Install, Ids, Merged, Upper, Written,
         Recovered, Kept, ToMap, ManTables, AnySeparated, ValueLog.MoveTable;
    AppendKeepsNumber(s);
  }

  lemma AppendKeepsNumber(s: State)
    ensures CanFlushAppend(s) ==> FlushAppend(s).ram.value.nextId == s.ram.value.nextId
    ensures CanLockedFlush(s) ==>
              var r := LockedFlush(s).ram.value;
              r.nextId == s.ram.value.nextId + 1 && r.flush.Some? && r.flush.value.id == s.ram.value.nextId
  {
    hide ValueLog.MoveTable;
  }

  // From every running state the readers may finish and then everything obsolete may be
  // unlinked, which changes nothing else.
  lemma ObsoleteFilesCanGo(cfg: Config, es: seq<Event>) returns (longer: seq<Event>)
    requires IsRun(Fresh(cfg), es) && Up(After(Fresh(cfg), es))
    ensures es <= longer && IsRun(Fresh(cfg), longer)
    ensures var s, s' := After(Fresh(cfg), es), After(Fresh(cfg), longer);
            var r := s.ram.value;
            && s'.ram == Some(r.(readers := [], garbage := {}, oldGens := {})) && s'.spec == s.spec
            && s'.disk.man == s.disk.man && s'.disk.wal == s.disk.wal && s'.disk.sealed == s.disk.sealed
            && s'.disk.files.Keys == Ids(r.tables) + FlushFile(r.flush) + MergeFiles(r.merge) + GcFile(r.gc)
            && s'.disk.blobs.Keys == {r.gen} + (if r.gc.Some? then {r.gen + 1} else {})
  {
    hide Next, Enabled;
    longer := CloseReaders(Fresh(cfg), es);
    longer := UnlinkTables(Fresh(cfg), longer);
    longer := UnlinkLogs(Fresh(cfg), longer);
    RunKeepsFiles(cfg, longer);
  }

  ghost predicate SameButObsolete(a: State, b: State) {
    && Up(a) && Up(b) && a.cfg == b.cfg && a.spec == b.spec
    && a.disk.(files := map[], blobs := map[]) == b.disk.(files := map[], blobs := map[])
    && a.ram.value.(readers := [], garbage := {}, oldGens := {}) ==
       b.ram.value.(readers := [], garbage := {}, oldGens := {})
  }

  lemma {:induction false} CloseReaders(s: State, es: seq<Event>) returns (longer: seq<Event>)
    requires IsRun(s, es) && Up(After(s, es))
    ensures es <= longer && IsRun(s, longer) && SameButObsolete(After(s, es), After(s, longer))
    ensures After(s, longer).ram.value.readers == []
    decreases |After(s, es).ram.value.readers|
  {
    longer := es;
    if After(s, es).ram.value.readers != [] {
      Extend(s, es, DoCloseReader(0));
      longer := CloseReaders(s, es + [DoCloseReader(0)]);
    }
  }

  lemma {:induction false} UnlinkTables(s: State, es: seq<Event>) returns (longer: seq<Event>)
    requires IsRun(s, es) && Up(After(s, es)) && After(s, es).ram.value.readers == []
    ensures es <= longer && IsRun(s, longer) && SameButObsolete(After(s, es), After(s, longer))
    ensures After(s, longer).ram.value.readers == [] && After(s, longer).ram.value.garbage == {}
    decreases After(s, es).ram.value.garbage
  {
    longer := es;
    if After(s, es).ram.value.garbage != {} {
      var id :| id in After(s, es).ram.value.garbage;
      Extend(s, es, DoUnlink(id));
      longer := UnlinkTables(s, es + [DoUnlink(id)]);
    }
  }

  lemma {:induction false} UnlinkLogs(s: State, es: seq<Event>) returns (longer: seq<Event>)
    requires IsRun(s, es) && Up(After(s, es))
    requires After(s, es).ram.value.readers == [] && After(s, es).ram.value.garbage == {}
    ensures es <= longer && IsRun(s, longer) && SameButObsolete(After(s, es), After(s, longer))
    ensures var r := After(s, longer).ram.value; r.readers == [] && r.garbage == {} && r.oldGens == {}
    decreases After(s, es).ram.value.oldGens
  {
    longer := es;
    if After(s, es).ram.value.oldGens != {} {
      var g :| g in After(s, es).ram.value.oldGens;
      Extend(s, es, DoUnlinkLog(g));
      longer := UnlinkLogs(s, es + [DoUnlinkLog(g)]);
    }
  }
}
