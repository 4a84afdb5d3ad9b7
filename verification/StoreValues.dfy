// What the records hold. Over every run with crashes, every record of a listed or live
// table, of a flush, merge or collection in flight, and of a table some reader holds, reads
// as the effect of a write of the run to its key; not only the newest record of a key, and
// for a separated record through its pointer.
module StoreValues {
  import opened Keys
  import opened Records
  import opened Layers
  import opened Leveled
  import opened LeveledCommit
  import opened ValueLog
  import opened Store
  import opened StoreInv
  import opened StoreMerge
  import opened StoreCrash
  import opened StoreRuns

  // The reading is the effect of a write of the run.
  ghost predicate Wrote(es: seq<Event>, k: Key, a: Answer) {
    match a
    case Found(v) => DoWrite(Record(k, Inline(v))) in es
    case Missing => DoWrite(Record(k, Deleted)) in es
    case Broken => false
  }

  ghost predicate Genuine(es: seq<Event>, recs: map<Key, Body>, logs: Logs) {
    forall k :: k in recs ==> Wrote(es, k, Resolve(recs[k], logs))
  }

  ghost predicate AllGenuine(es: seq<Event>, tables: seq<Table>, logs: Logs) {
    forall t :: t in tables ==> Genuine(es, t.recs, logs)
  }

  ghost predicate LogsGenuine(es: seq<Event>, d: Disk) {
    forall w :: w in SealedRecs(d) + d.wal.recs ==> DoWrite(w) in es
  }

  ghost predicate ReadersGenuine(es: seq<Event>, s: State) {
    Up(s) ==> forall rd :: rd in s.ram.value.readers ==> AllGenuine(es, rd.tables, LogsOf(s.disk))
  }

  // The logs hold writes of the run, and so do the listed tables and the readers' ones.
  ghost predicate Values(es: seq<Event>, s: State) {
    LogsGenuine(es, s.disk) && AllGenuine(es, ManTables(s.disk), LogsOf(s.disk)) && ReadersGenuine(es, s)
  }

  lemma GenuineGrows(es: seq<Event>, e: Event, recs: map<Key, Body>, logs: Logs)
    requires Genuine(es, recs, logs)
    ensures Genuine(es + [e], recs, logs)
  {
    hide Resolve;
  }

  // Tables keep their readings while the logs agree on the part they point into.
  lemma GenuineKept(es: seq<Event>, e: Event, tables: seq<Table>, gen: nat, limit: nat, l: Logs, l': Logs)
    requires AllGenuine(es, tables, l) && AllSound(tables, gen, limit) && LogsAgree(l, l', gen, limit)
    ensures AllGenuine(es + [e], tables, l')
  {
    hide Resolve, Wrote, LogsAgree;
    forall t | t in tables ensures Genuine(es + [e], t.recs, l') {
      forall k | k in t.recs ensures Wrote(es, k, Resolve(t.recs[k], l')) {
        assert Sound(t.recs, gen, limit);
        ResolveAgrees(t.recs[k], l, l', gen, limit);
      }
      GenuineGrows(es, e, t.recs, l');
    }
  }

  // ----- what is in flight -----

  lemma {:induction false} ReplayedIsGenuine(es: seq<Event>, recs: seq<Record>, logs: Logs)
    requires AllPlain(recs) && forall w :: w in recs ==> DoWrite(w) in es
    ensures Genuine(es, ToMap(recs), logs)
  {
    if recs != [] {
      var w := recs[|recs| - 1];
      ReplayedIsGenuine(es, recs[..|recs| - 1], logs);
      assert w in recs;
      assert w == Record(w.key, w.body);
    }
  }

  lemma SourceIsGenuine(es: seq<Event>, s: State)
    requires Inv(s) && Up(s) && LogsGenuine(es, s.disk) && s.ram.value.flush.Some?
    ensures Genuine(es, FlushSource(s.ram.value), LogsOf(s.disk))
  {
    hide Less, WellOrdered, CrashOk, Live, FlushOk, MergeOk, GcOk, IdsOk, ReadersOk, ToMap, Genuine;
    var d, logs := s.disk, LogsOf(s.disk);
    ReplayedIsGenuine(es, d.wal.recs, logs);
    ReplayedIsGenuine(es, SealedRecs(d), logs);
    ReplayedIsGenuine(es, SealedRecs(d) + d.wal.recs, logs);
    if d.sealed == None {
      Nothing(d.wal.recs);
    }
  }

  lemma FlushIsGenuine(es: seq<Event>, s: State)
    requires Inv(s) && Up(s) && LogsGenuine(es, s.disk) && s.ram.value.flush.Some?
    ensures Genuine(es, s.ram.value.flush.value.recs, LogsOf(s.disk))
  {
    hide Less, WellOrdered, CrashOk, Live, MergeOk, GcOk, IdsOk, ReadersOk, MemOk, Resolve, Wrote;
    SourceIsGenuine(es, s);
    assert FlushedFrom(s.ram.value.flush.value.recs, FlushSource(s.ram.value), LogsOf(s.disk));
  }

  lemma MergedIsGenuine(es: seq<Event>, inputs: seq<Table>, drop: bool, logs: Logs)
    requires AllGenuine(es, inputs, logs)
    ensures Genuine(es, Merged(inputs, drop), logs)
  {
    hide Merged, Overlay, Resolve, Wrote;
    forall k | k in Merged(inputs, drop) ensures Wrote(es, k, Resolve(Merged(inputs, drop)[k], logs)) {
      MergedBody(inputs, drop, k);
      LookupOverlay(inputs, k);
      var i := LookupSome(inputs, k);
      assert inputs[i] in inputs;
    }
  }

  lemma OutputsAreGenuine(es: seq<Event>, s: State)
    requires Inv(s) && Up(s) && AllGenuine(es, s.ram.value.tables, LogsOf(s.disk))
    requires s.ram.value.merge.Some? && s.ram.value.merge.value.outs.Some?
    ensures AllGenuine(es, s.ram.value.merge.value.outs.value, LogsOf(s.disk))
  {
    hide Less, WellOrdered, CrashOk, Live, FlushOk, GcOk, IdsOk, ReadersOk, MemOk, Genuine, IsSplit, Merged, PlanOk;
    var r := s.ram.value;
    var plan, outs := r.merge.value.plan, r.merge.value.outs.value;
    CommitIsSound(s.cfg, r);
    var drop := if plan.Run? then plan.drop else plan.p.drop;
    assert MergedBy(plan) == Merged(InputsOf(plan), drop);
    MergedIsGenuine(es, InputsOf(plan), drop, LogsOf(s.disk));
    forall o | o in outs ensures Genuine(es, o.recs, LogsOf(s.disk)) {
      OutputIsGenuine(es, plan, outs, o, LogsOf(s.disk));
    }
  }

  lemma OutputIsGenuine(es: seq<Event>, plan: Plan, outs: seq<Table>, o: Table, logs: Logs)
    requires OutsOk(plan, outs) && Genuine(es, MergedBy(plan), logs) && o in outs
    ensures Genuine(es, o.recs, logs)
  {
    hide Less, MergedBy, MinKey, MaxKey, Resolve, Wrote;
    forall k | k in o.recs ensures Wrote(es, k, Resolve(o.recs[k], logs)) {
      assert k in MergedBy(plan) && o.recs[k] == MergedBy(plan)[k];
    }
  }

  lemma CollectedIsGenuine(es: seq<Event>, s: State)
    requires Inv(s) && Up(s) && AllGenuine(es, s.ram.value.tables, LogsOf(s.disk)) && s.ram.value.gc.Some?
    ensures Genuine(es, s.ram.value.gc.value.recs, LogsOf(s.disk))
  {
    hide Less, DiskOk, CrashOk, Live, FlushOk, MergeOk, IdsOk, ReadersOk, MemOk, Sound, Wrote;
    var r, logs := s.ram.value, LogsOf(s.disk);
    var recs := r.gc.value.recs;
    forall k | k in recs ensures Wrote(es, k, Resolve(recs[k], logs)) {
      assert View(recs, [], logs, k) == Read(r.tables, logs, k);
      assert recs[k] != Deleted;
      var i := LookupSome(r.tables, k);
      assert r.tables[i] in r.tables;
    }
  }

  // ----- how a step changes the disk -----

  lemma StepLogs(s: State, e: Event, w: Record)
    requires Enabled(s, e)
    requires w in SealedRecs(Next(s, e).disk) + Next(s, e).disk.wal.recs
    ensures w in SealedRecs(s.disk) + s.disk.wal.recs || e == DoWrite(w)
  {
    hide Less, Recovered, ManifestFor, AppendedTo, IsSplit, IsLevelPick, Kept, MergedBy, Commit, Install, Ids, Merged,
         MoveTable, ToMap, ManTables, Upper, AnySeparated, Written;
    var d, d' := s.disk, Next(s, e).disk;
    assert w in SealedRecs(d') || w in d'.wal.recs;
    AppendKeepsLogs(s);
  }

  lemma AppendKeepsLogs(s: State)
    ensures CanFlushAppend(s) ==> FlushAppend(s).disk.wal == s.disk.wal && FlushAppend(s).disk.sealed == s.disk.sealed
    ensures CanLockedFlush(s) ==> LockedFlush(s).disk.wal == s.disk.wal && LockedFlush(s).disk.sealed == s.disk.sealed
  {
    hide MoveTable;
  }

  ghost predicate Commits(e: Event) {
    e.DoFlushCommit? || e.DoLockedCommit? || e.DoMergeCommit? || e.DoGcCommit?
  }

  // While the process runs a value log only grows, until it is unlinked.
  lemma RunningStepLogs(s: State, e: Event, g: nat)
    requires Enabled(s, e) && Up(s) && Up(Next(s, e)) && g in s.disk.blobs && e != DoUnlinkLog(g)
    ensures g in Next(s, e).disk.blobs && s.disk.blobs[g].bytes <= Next(s, e).disk.blobs[g].bytes
    ensures Commits(e) ==> Next(s, e).disk.blobs == s.disk.blobs
  {
    hide Next, Enabled;
    match e
    case DoFlushAppend | DoLockedFlush | DoGcRelocate => AppendingStepLogs(s, e, g);
    case DoFlushSync | DoGcSync | DoUnlinkLog(_) => SyncingStepLogs(s, e, g);
    case _ => OtherStepLogs(s, e);
  }

  lemma AppendingStepLogs(s: State, e: Event, g: nat)
    requires Enabled(s, e) && g in s.disk.blobs && (e.DoFlushAppend? || e.DoLockedFlush? || e.DoGcRelocate?)
    ensures g in Next(s, e).disk.blobs && s.disk.blobs[g].bytes <= Next(s, e).disk.blobs[g].bytes
  {
    hide Less, Merged, MoveTable, EntryBytes, MovedBody, Listing;
    match e
    case DoFlushAppend =>
      MoveTableSpec(s.ram.value.sealed.value.entries, BySize(s.cfg.threshold), s.ram.value.gen,
                    s.disk.blobs[s.ram.value.gen].bytes);
    case DoLockedFlush =>
      MoveTableSpec(s.ram.value.mem, BySize(s.cfg.threshold), s.ram.value.gen, s.disk.blobs[s.ram.value.gen].bytes);
    case DoGcRelocate =>
      var next := s.ram.value.gen + 1;
      MoveTableSpec(Merged(s.ram.value.tables, true), FromLogs(LogsOf(s.disk)), next,
                    if next in s.disk.blobs then s.disk.blobs[next].bytes else []);
  }

  lemma SyncingStepLogs(s: State, e: Event, g: nat)
    requires Enabled(s, e) && g in s.disk.blobs && e != DoUnlinkLog(g)
    requires e.DoFlushSync? || e.DoGcSync? || e.DoUnlinkLog?
    ensures g in Next(s, e).disk.blobs && s.disk.blobs[g].bytes <= Next(s, e).disk.blobs[g].bytes
  {
    hide Less, AnySeparated;
  }

  lemma OtherStepLogs(s: State, e: Event)
    requires Enabled(s, e) && Up(s) && Up(Next(s, e))
    requires !e.DoFlushAppend? && !e.DoLockedFlush? && !e.DoGcRelocate?
    requires !e.DoFlushSync? && !e.DoGcSync? && !e.DoUnlinkLog?
    ensures Next(s, e).disk.blobs == s.disk.blobs
  {
    hide Less, ManifestFor, IsSplit, IsLevelPick, MergedBy, Commit, Install, Ids, Merged, Upper, Written, Open;
  }

  // A running step that is not a commit keeps the list.
  lemma RunningStepTables(s: State, e: Event)
    requires Enabled(s, e) && Up(s) && Up(Next(s, e)) && !Commits(e)
    ensures Next(s, e).ram.value.tables == s.ram.value.tables && Next(s, e).ram.value.gen == s.ram.value.gen
  {
    hide Less, Recovered, ManifestFor, AppendedTo, IsSplit, IsLevelPick, Kept, MergedBy, Merged, MoveTable, ToMap,
         ManTables, Upper, AnySeparated, Written;
  }

  // The list and its pointers in a running state.
  lemma ListFacts(s: State)
    requires Inv(s) && Up(s)
    ensures var r := s.ram.value;
            && r.tables == ManTables(s.disk) && r.gen == s.disk.man.gen && r.gen in s.disk.blobs
            && s.disk.blobs[r.gen].synced <= |s.disk.blobs[r.gen].bytes|
            && AllSound(r.tables, r.gen, s.disk.blobs[r.gen].synced)
            && (forall g :: g in r.oldGens ==> g < r.gen)
  {
    hide Less, WellOrdered, CrashOk, Live, FlushOk, MergeOk, GcOk, IdsOk, ReadersOk, MemOk, ManTables, AllSound;
  }

  lemma PrefixAgrees(l: Logs, l': Logs, g: nat, limit: nat)
    requires g in l && g in l' && limit <= |l[g]| && l[g] <= l'[g]
    ensures LogsAgree(l, l', g, limit)
  {
    assert l'[g][..limit] == l[g][..limit];
  }

  // ----- every step -----

  lemma QuietStep(es: seq<Event>, s: State, e: Event)
    requires Inv(s) && Enabled(s, e) && Inv(Next(s, e)) && Values(es, s) && Up(s) && Up(Next(s, e)) && !Commits(e)
    ensures AllGenuine(es + [e], ManTables(Next(s, e).disk), LogsOf(Next(s, e).disk))
  {
    hide Inv, Next, Enabled, ManTables, AllGenuine, AllSound, LogsAgree, LogsGenuine, ReadersGenuine;
    ListFacts(s);
    ListFacts(Next(s, e));
    RunningStepTables(s, e);
    var g := s.ram.value.gen;
    UnlinkedIsOld(s, e);
    RunningStepLogs(s, e, g);
    var l, l' := LogsOf(s.disk), LogsOf(Next(s, e).disk);
    PrefixAgrees(l, l', g, s.disk.blobs[g].synced);
    GenuineKept(es, e, s.ram.value.tables, g, s.disk.blobs[g].synced, l, l');
  }

  lemma UnlinkedIsOld(s: State, e: Event)
    requires Enabled(s, e) && Up(s)
    ensures e.DoUnlinkLog? ==> e.g in s.ram.value.oldGens && forall rd :: rd in s.ram.value.readers ==> rd.gen != e.g
  {
    hide Next, CanMergeLevel, CanReserve;
  }

  lemma CommitMembers(es: seq<Event>, s: State, e: Event, t: Table)
    requires Inv(s) && Enabled(s, e) && Up(s) && Commits(e) && Values(es, s)
    requires Up(Next(s, e)) && t in Next(s, e).ram.value.tables
    ensures Genuine(es, t.recs, LogsOf(s.disk))
  {
    hide Inv, ManifestFor, Install, Commit, Genuine, LogsOf, Ids, IsSplit, IsLevelPick, ManTables, LogsGenuine;
    ListFacts(s);
    match e
    case DoFlushCommit => FlushIsGenuine(es, s);
    case DoLockedCommit => FlushIsGenuine(es, s);
    case DoGcCommit => CollectedIsGenuine(es, s);
    case DoMergeCommit =>
      OutputsAreGenuine(es, s);
      MergedMembers(s, t);
  }

  lemma MergedMembers(s: State, t: Table)
    requires Inv(s) && CanMergeCommit(s) && t in MergeCommit(s).ram.value.tables
    ensures t in s.ram.value.tables || t in s.ram.value.merge.value.outs.value
  {
    hide Less, WellOrdered, CrashOk, MemOk, FlushOk, GcOk, IdsOk, ReadersOk, Live, Install, Commit, IsSplit, Merged,
         Visible, ManifestFor;
    CommitIsSound(s.cfg, s.ram.value);
    assert MergeCommit(s).ram.value.tables == NextTables(s.ram.value);
  }

  lemma CommitStep(es: seq<Event>, s: State, e: Event)
    requires Inv(s) && Enabled(s, e) && Inv(Next(s, e)) && Values(es, s) && Commits(e)
    ensures AllGenuine(es + [e], ManTables(Next(s, e).disk), LogsOf(Next(s, e).disk))
  {
    hide Inv, Next, Enabled, ManTables, Genuine, LogsGenuine, ReadersGenuine, AllSound;
    CommitsRun(s, e);
    ListFacts(s);
    ListFacts(Next(s, e));
    RunningStepLogs(s, e, s.ram.value.gen);
    forall t | t in Next(s, e).ram.value.tables ensures Genuine(es + [e], t.recs, LogsOf(s.disk)) {
      CommitMembers(es, s, e, t);
      GenuineGrows(es, e, t.recs, LogsOf(s.disk));
    }
  }

  lemma CommitsRun(s: State, e: Event)
    requires Enabled(s, e) && Commits(e)
    ensures Up(s) && Up(Next(s, e))
  {
    hide ManifestFor, Install, Commit, Ids;
  }

  // A crash, open-time cleanup or a reopening keeps the list and the durable part of its log.
  lemma DownStep(es: seq<Event>, s: State, e: Event)
    requires Inv(s) && Enabled(s, e) && Values(es, s) && (!Up(s) || !Up(Next(s, e)))
    ensures AllGenuine(es + [e], ManTables(Next(s, e).disk), LogsOf(Next(s, e).disk))
  {
    hide Inv, Next, Enabled, ManTables, AllGenuine, AllSound, LogsAgree, LogsGenuine, ReadersGenuine;
    DownStepDisk(s, e);
    DiskPointers(s);
    var d, d' := s.disk, Next(s, e).disk;
    GenuineKept(es, e, ManTables(d), d.man.gen, d.blobs[d.man.gen].synced, LogsOf(d), LogsOf(d'));
  }

  lemma DiskPointers(s: State)
    requires Inv(s)
    ensures s.disk.man.gen in s.disk.blobs
    ensures AllSound(ManTables(s.disk), s.disk.man.gen, s.disk.blobs[s.disk.man.gen].synced)
    ensures BlobsOk(s.disk.blobs)
  {
    hide Less, WellOrdered, CrashOk, RamOk, ManTables, AllSound;
  }

  lemma DownStepDisk(s: State, e: Event)
    requires Inv(s) && Enabled(s, e) && (!Up(s) || !Up(Next(s, e)))
    ensures s.disk.man.gen in s.disk.blobs && ManTables(Next(s, e).disk) == ManTables(s.disk)
    ensures LogsAgree(LogsOf(s.disk), LogsOf(Next(s, e).disk), s.disk.man.gen, s.disk.blobs[s.disk.man.gen].synced)
  {
    hide Less, WellOrdered, CrashOk, RamOk, AllSound, Recovered, ManifestFor, AppendedTo, IsSplit, IsLevelPick, Kept,
         MergedBy, Commit, Install, Ids, Merged, ToMap, Upper, AnySeparated, Written;
    DiskPointers(s);
    match e
    case DoCrash(n, blobs) =>
      var g := s.disk.man.gen;
      assert blobs[g].bytes[..blobs[g].synced] == s.disk.blobs[g].bytes[..blobs[g].synced];
    case DoCleanFile(id) =>
      CleanKeepsTables(s, id);
    case DoOpen =>
      OpenKeepsDisk(s);
    case _ =>
  }

  lemma CleanKeepsTables(s: State, id: nat)
    requires CanCleanFile(s, id)
    ensures ManTables(CleanFile(s, id).disk) == ManTables(s.disk)
  {
    forall i | 0 <= i < |s.disk.man.tables| ensures s.disk.man.tables[i].id != id {
      assert s.disk.man.tables[i] in s.disk.man.tables;
    }
  }

  // A reader's tables stay readable: its generation is not unlinked and only grows.
  lemma ReaderStep(es: seq<Event>, s: State, e: Event, rd: Reader)
    requires Inv(s) && Enabled(s, e) && Inv(Next(s, e)) && Values(es, s)
    requires Up(Next(s, e)) && rd in Next(s, e).ram.value.readers
    ensures AllGenuine(es + [e], rd.tables, LogsOf(Next(s, e).disk))
  {
    hide Inv, Next, Enabled, ManTables, AllGenuine, AllSound, LogsAgree, LogsGenuine;
    StepReaders(s, e, rd);
    var l, l' := LogsOf(s.disk), LogsOf(Next(s, e).disk);
    if rd in s.ram.value.readers {
      ReaderPointers(s, rd);
      UnlinkedIsOld(s, e);
      RunningStepLogs(s, e, rd.gen);
      PrefixAgrees(l, l', rd.gen, |l[rd.gen]|);
      GenuineKept(es, e, rd.tables, rd.gen, |l[rd.gen]|, l, l');
    } else {
      ListFacts(s);
      var g := s.ram.value.gen;
      RunningStepLogs(s, e, g);
      PrefixAgrees(l, l', g, s.disk.blobs[g].synced);
      GenuineKept(es, e, rd.tables, g, s.disk.blobs[g].synced, l, l');
    }
  }

  lemma ReaderPointers(s: State, rd: Reader)
    requires Inv(s) && Up(s) && rd in s.ram.value.readers
    ensures rd.gen in s.disk.blobs && AllSound(rd.tables, rd.gen, |s.disk.blobs[rd.gen].bytes|)
  {
    hide Less, DiskOk, CrashOk, Live, FlushOk, MergeOk, GcOk, IdsOk, MemOk, AllSound, Backed;
    assert ReaderOk(rd, s.ram.value, s.disk);
  }

  lemma StepKeepsValues(es: seq<Event>, s: State, e: Event)
    requires Inv(s) && Enabled(s, e) && Values(es, s)
    ensures Values(es + [e], Next(s, e))
  {
    hide Inv, Next, Enabled, ManTables, AllGenuine, LogsOf;
    StepKeepsInv(s, e);
    var s' := Next(s, e);
    forall w | w in SealedRecs(s'.disk) + s'.disk.wal.recs ensures DoWrite(w) in es + [e] {
      StepLogs(s, e, w);
    }
    if !Up(s) || !Up(s') {
      DownStep(es, s, e);
    } else if Commits(e) {
      CommitStep(es, s, e);
    } else {
      QuietStep(es, s, e);
    }
    if Up(s') {
      forall rd | rd in s'.ram.value.readers ensures AllGenuine(es + [e], rd.tables, LogsOf(s'.disk)) {
        ReaderStep(es, s, e, rd);
      }
    }
  }

  lemma {:induction false} RunKeepsValues(cfg: Config, es: seq<Event>)
    requires IsRun(Fresh(cfg), es)
    ensures Values(es, After(Fresh(cfg), es))
  {
    hide Inv, Next, Enabled, Values;
    if es == [] {
      FreshValues(cfg);
    } else {
      var before := es[..|es| - 1];
      RunKeepsValues(cfg, before);
      FreshInv(cfg);
      RunKeepsInv(Fresh(cfg), before);
      StepKeepsValues(before, After(Fresh(cfg), before), es[|es| - 1]);
      assert es == before + [es[|es| - 1]];
    }
  }

  lemma FreshValues(cfg: Config)
    ensures Values([], Fresh(cfg))
  {
  }

  // ----- over whole runs -----

  // Every pointer lies within the given part of the generation it must name, and every
  // record reads as the effect of a write of the run.
  ghost predicate Safe(es: seq<Event>, recs: map<Key, Body>, gen: nat, limit: nat, logs: Logs) {
    Sound(recs, gen, limit) && Genuine(es, recs, logs)
  }

  ghost predicate AllSafe(es: seq<Event>, tables: seq<Table>, gen: nat, limit: nat, logs: Logs) {
    AllSound(tables, gen, limit) && AllGenuine(es, tables, logs)
  }

  // In every state of every run, crashed ones included, every record of a table the
  // manifest names is a write of the run, its pointer in the durable part of the named
  // generation.
  lemma ListedValuesAreSafe(cfg: Config, es: seq<Event>)
    requires IsRun(Fresh(cfg), es)
    ensures var d := After(Fresh(cfg), es).disk;
            && d.man.gen in d.blobs
            && AllSafe(es, ManTables(d), d.man.gen, d.blobs[d.man.gen].synced, LogsOf(d))
  {
    hide Inv, Next, Enabled, ManTables, AllGenuine, AllSound, LogsGenuine, ReadersGenuine;
    FreshInv(cfg);
    RunKeepsInv(Fresh(cfg), es);
    RunKeepsValues(cfg, es);
    DiskPointers(After(Fresh(cfg), es));
  }

  // In every running state the same holds of the live tables, of a flush, a merge and a
  // collection in flight (the last in the next generation), and of every reader's tables
  // in the generation it holds.
  lemma PointersAreSafe(cfg: Config, es: seq<Event>)
    requires IsRun(Fresh(cfg), es) && Up(After(Fresh(cfg), es))
    ensures var s := After(Fresh(cfg), es);
            var r, blobs, logs := s.ram.value, s.disk.blobs, LogsOf(s.disk);
            && r.gen in blobs && AllSafe(es, r.tables, r.gen, blobs[r.gen].synced, logs)
            && (r.flush.Some? ==> Safe(es, r.flush.value.recs, r.gen, |blobs[r.gen].bytes|, logs))
            && (r.gc.Some? ==>
                  r.gen + 1 in blobs && Safe(es, r.gc.value.recs, r.gen + 1, |blobs[r.gen + 1].bytes|, logs))
            && (r.merge.Some? && r.merge.value.outs.Some? ==>
                  AllSafe(es, r.merge.value.outs.value, r.gen, blobs[r.gen].synced, logs))
            && (forall rd :: rd in r.readers ==>
                  rd.gen in blobs && AllSafe(es, rd.tables, rd.gen, |blobs[rd.gen].bytes|, logs))
  {
    hide Inv, Next, Enabled, ManTables, AllGenuine, Genuine, AllSound, Sound, LogsGenuine;
    FreshInv(cfg);
    RunKeepsInv(Fresh(cfg), es);
    RunKeepsValues(cfg, es);
    var s := After(Fresh(cfg), es);
    var r := s.ram.value;
    ListFacts(s);
    JobPointers(s);
    if r.flush.Some? {
      FlushIsGenuine(es, s);
    }
    if r.gc.Some? {
      CollectedIsGenuine(es, s);
    }
    if r.merge.Some? && r.merge.value.outs.Some? {
      OutputsAreGenuine(es, s);
    }
    forall rd | rd in r.readers
      ensures rd.gen in s.disk.blobs && AllSafe(es, rd.tables, rd.gen, |s.disk.blobs[rd.gen].bytes|, LogsOf(s.disk))
    {
      ReaderPointers(s, rd);
    }
  }

  lemma JobPointers(s: State)
    requires Inv(s) && Up(s)
    ensures var r, blobs := s.ram.value, s.disk.blobs;
            && r.gen in blobs
            && (r.flush.Some? ==> Sound(r.flush.value.recs, r.gen, |blobs[r.gen].bytes|))
            && (r.gc.Some? ==> r.gen + 1 in blobs && Sound(r.gc.value.recs, r.gen + 1, |blobs[r.gen + 1].bytes|))
            && (r.merge.Some? && r.merge.value.outs.Some? ==>
                  AllSound(r.merge.value.outs.value, r.gen, blobs[r.gen].synced))
  {
    hide CrashOk, Live, MemOk, ReadersOk, IdsOk, WellOrdered, View;
    var r := s.ram.value;
    if r.merge.Some? && r.merge.value.outs.Some? {
      hide IsSplit, Merged, Sound, GcOk, FlushOk;
      CommitIsSound(s.cfg, r);
      OutsAreSound(r.merge.value.plan, r.merge.value.outs.value, r.gen, s.disk.blobs[r.gen].synced);
    }
  }

  // A separated record of a listed table reads back, through its pointer, exactly a value
  // that was put to its key.
  lemma SeparatedReadsBack(cfg: Config, es: seq<Event>, t: Table, k: Key) returns (v: Bytes)
    requires IsRun(Fresh(cfg), es) && t in ManTables(After(Fresh(cfg), es).disk)
    requires k in t.recs && t.recs[k].Separated?
    ensures DoWrite(Record(k, Inline(v))) in es
    ensures var d := After(Fresh(cfg), es).disk;
            && t.recs[k].ptr.gen == d.man.gen && InLog(t.recs[k].ptr, LogsOf(d))
            && LogValue(t.recs[k].ptr, LogsOf(d)) == v
  {
    hide Next, Enabled, ManTables, LogsOf;
    ListedValuesAreSafe(cfg, es);
    v := LogValue(t.recs[k].ptr, LogsOf(After(Fresh(cfg), es).disk));
  }
}
