// Which values the tables hold. Over every run with crashes, compactions and collections, a
// value is in a table exactly if it is shorter than the threshold, and otherwise in the
// value log.
module StoreSizes {
  import opened Keys
  import opened Records
  import opened Layers
  import opened Leveled
  import opened LeveledCommit
  import opened ValueLog
  import opened Store
  import opened StoreInv
  import opened StoreFlush
  import opened StoreMerge
  import opened StoreRuns
  import opened StoreValues

  ghost predicate Sized(recs: map<Key, Body>, threshold: nat) {
    forall k :: k in recs ==>
      match recs[k]
      case Inline(v) => |v| < threshold
      case Separated(p) => p.len >= threshold
      case Deleted => true
  }

  ghost predicate AllSized(tables: seq<Table>, threshold: nat) {
    forall t :: t in tables ==> Sized(t.recs, threshold)
  }

  ghost predicate JobsSized(r: Ram, threshold: nat) {
    && (r.flush.Some? ==> Sized(r.flush.value.recs, threshold))
    && (r.gc.Some? ==> Sized(r.gc.value.recs, threshold))
  }

  ghost predicate Sizes(s: State) {
    AllSized(ManTables(s.disk), s.cfg.threshold) && (Up(s) ==> JobsSized(s.ram.value, s.cfg.threshold))
  }

  // ----- the jobs -----

  lemma MovedIsSized(source: map<Key, Body>, logs: Logs, gen: nat, log: Bytes, threshold: nat)
    requires Sized(source, threshold)
    ensures Sized(MoveTable(source, FromLogs(logs), gen, log).0, threshold)
  {
    hide MoveTable;
    MoveTableSpec(source, FromLogs(logs), gen, log);
    var (recs, log') := MoveTable(source, FromLogs(logs), gen, log);
    forall k | k in recs
      ensures recs[k].Inline? ==> |recs[k].value| < threshold
      ensures recs[k].Separated? ==> recs[k].ptr.len >= threshold
    {
      assert MovedBody(source[k], FromLogs(logs), gen, log', recs[k]);
    }
  }

  lemma MergedIsSized(inputs: seq<Table>, drop: bool, threshold: nat)
    requires AllSized(inputs, threshold)
    ensures Sized(Merged(inputs, drop), threshold)
  {
    hide Merged, Overlay, Sized;
    var m := Merged(inputs, drop);
    forall k | k in m ensures Sized(map[k := m[k]], threshold) {
      MergedBody(inputs, drop, k);
      LookupOverlay(inputs, k);
      var i := LookupSome(inputs, k);
      assert inputs[i] in inputs;
      OneSized(inputs[i].recs, k, threshold);
    }
    EachSized(m, threshold);
  }

  lemma OneSized(recs: map<Key, Body>, k: Key, threshold: nat)
    requires Sized(recs, threshold) && k in recs
    ensures Sized(map[k := recs[k]], threshold)
  {
  }

  lemma EachSized(recs: map<Key, Body>, threshold: nat)
    requires forall k :: k in recs ==> Sized(map[k := recs[k]], threshold)
    ensures Sized(recs, threshold)
  {
    forall k | k in recs
      ensures recs[k].Inline? ==> |recs[k].value| < threshold
      ensures recs[k].Separated? ==> recs[k].ptr.len >= threshold
    {
      assert k in map[k := recs[k]];
    }
  }

  lemma OutputsAreSized(s: State)
    requires Inv(s) && Up(s) && AllSized(s.ram.value.tables, s.cfg.threshold)
    requires s.ram.value.merge.Some? && s.ram.value.merge.value.outs.Some?
    ensures AllSized(s.ram.value.merge.value.outs.value, s.cfg.threshold)
  {
    hide Less, WellOrdered, CrashOk, Live, FlushOk, GcOk, IdsOk, ReadersOk, MemOk, Sized, IsSplit, Merged, PlanOk;
    var r := s.ram.value;
    var plan, outs := r.merge.value.plan, r.merge.value.outs.value;
    CommitIsSound(s.cfg, r);
    var drop := if plan.Run? then plan.drop else plan.p.drop;
    assert MergedBy(plan) == Merged(InputsOf(plan), drop);
    MergedIsSized(InputsOf(plan), drop, s.cfg.threshold);
    forall o | o in outs ensures Sized(o.recs, s.cfg.threshold) {
      OutputIsSized(plan, outs, o, s.cfg.threshold);
    }
  }

  lemma OutputIsSized(plan: Plan, outs: seq<Table>, o: Table, threshold: nat)
    requires OutsOk(plan, outs) && Sized(MergedBy(plan), threshold) && o in outs
    ensures Sized(o.recs, threshold)
  {
    hide Less, MergedBy, MinKey, MaxKey;
    forall k | k in o.recs ensures k in MergedBy(plan) && o.recs[k] == MergedBy(plan)[k] {
    }
  }

  lemma AppendedIsSized(s: State, source: map<Key, Body>, id: nat)
    requires Up(s) && s.ram.value.gen in s.disk.blobs && PlainMap(source)
    ensures Sized(AppendedTo(s, source, id).1.recs, s.cfg.threshold)
  {
    hide MoveTable;
    SeparationKeepsReads(source, s.cfg.threshold, s.ram.value.gen, s.disk.blobs);
    var recs := AppendedTo(s, source, id).1.recs;
    forall k | k in recs
      ensures recs[k].Inline? ==> |recs[k].value| < s.cfg.threshold
      ensures recs[k].Separated? ==> recs[k].ptr.len >= s.cfg.threshold
    {
      assert k in source;
    }
  }

  // ----- every step -----

  lemma StartStep(s: State, e: Event)
    requires Inv(s) && Enabled(s, e) && Sizes(s) && (e.DoFlushAppend? || e.DoLockedFlush? || e.DoGcRelocate?)
    ensures JobsSized(Next(s, e).ram.value, s.cfg.threshold)
  {
    hide Less, CrashOk, WellOrdered, Live, FlushOk, MergeOk, GcOk, IdsOk, ReadersOk, GensOk, Sized, MoveTable, Merged,
         AppendedTo, Listing, ToMap, DiskOk, PlainMap, MemOk;
    var r := s.ram.value;
    match e
    case DoFlushAppend =>
      MemtablesArePlain(s);
      AppendedIsSized(s, r.sealed.value.entries, r.sealed.value.id);
    case DoLockedFlush =>
      MemtablesArePlain(s);
      AppendedIsSized(s, r.mem, r.nextId);
    case DoGcRelocate =>
      MergedIsSized(r.tables, true, s.cfg.threshold);
      MovedIsSized(Merged(r.tables, true), LogsOf(s.disk), r.gen + 1,
                   if r.gen + 1 in s.disk.blobs then s.disk.blobs[r.gen + 1].bytes else [], s.cfg.threshold);
  }

  lemma MemtablesArePlain(s: State)
    requires Inv(s) && Up(s)
    ensures PlainMap(s.ram.value.mem)
    ensures s.ram.value.sealed.Some? ==> PlainMap(s.ram.value.sealed.value.entries)
  {
    hide Less, CrashOk, WellOrdered, Live, FlushOk, MergeOk, GcOk, IdsOk, ReadersOk, GensOk, ToMap, PlainMap, Absorbed;
    var d := s.disk;
    PlainReplay(d.wal.recs);
    PlainReplay(SealedRecs(d));
    PlainReplay(SealedRecs(d) + d.wal.recs);
    if d.sealed == None {
      Nothing(d.wal.recs);
    }
    EmptyIsPlain();
  }

  lemma EmptyIsPlain()
    ensures PlainMap(map[])
  {
  }

  lemma OtherStep(s: State, e: Event)
    requires Enabled(s, e) && Up(Next(s, e)) && (Up(s) ==> JobsSized(s.ram.value, s.cfg.threshold))
    requires !e.DoFlushAppend? && !e.DoLockedFlush? && !e.DoGcRelocate?
    ensures JobsSized(Next(s, e).ram.value, s.cfg.threshold)
  {
    hide Less, ManifestFor, IsSplit, IsLevelPick, MergedBy, Commit, Install, Ids, Merged, Upper, Written, Sized,
         Recovered, Kept, ToMap, ManTables, AnySeparated;
  }

  lemma CommitStep(s: State, e: Event)
    requires Inv(s) && Enabled(s, e) && Inv(Next(s, e)) && Sizes(s) && Commits(e)
    ensures AllSized(ManTables(Next(s, e).disk), s.cfg.threshold)
  {
    hide Inv, Next, Enabled, ManTables, Sized;
    CommitsRun(s, e);
    ListFacts(s);
    ListFacts(Next(s, e));
    forall t | t in Next(s, e).ram.value.tables ensures Sized(t.recs, s.cfg.threshold) {
      CommittedIsSized(s, e, t);
    }
  }

  lemma CommittedIsSized(s: State, e: Event, t: Table)
    requires Inv(s) && Enabled(s, e) && Up(s) && Commits(e)
    requires AllSized(s.ram.value.tables, s.cfg.threshold) && JobsSized(s.ram.value, s.cfg.threshold)
    requires Up(Next(s, e)) && t in Next(s, e).ram.value.tables
    ensures Sized(t.recs, s.cfg.threshold)
  {
    hide Inv, ManifestFor, Install, Commit, Sized, Ids, IsSplit, IsLevelPick;
    if e.DoMergeCommit? {
      OutputsAreSized(s);
      MergedMembers(s, t);
    }
  }

  lemma StepKeepsSizes(s: State, e: Event)
    requires Inv(s) && Enabled(s, e) && Sizes(s)
    ensures Sizes(Next(s, e))
  {
    hide Inv, Next, Enabled, ManTables, AllSized, JobsSized;
    StepKeepsInv(s, e);
    StepKeepsConfig(s, e);
    var s' := Next(s, e);
    if !Up(s) || !Up(s') {
      DownStepDisk(s, e);
    } else if Commits(e) {
      CommitStep(s, e);
    } else {
      ListFacts(s);
      ListFacts(s');
      RunningStepTables(s, e);
    }
    if Up(s') {
      if e.DoFlushAppend? || e.DoLockedFlush? || e.DoGcRelocate? {
        StartStep(s, e);
      } else {
        OtherStep(s, e);
      }
    }
  }

  lemma {:induction false} RunKeepsSizes(cfg: Config, es: seq<Event>)
    requires IsRun(Fresh(cfg), es)
    ensures Sizes(After(Fresh(cfg), es))
  {
    hide Inv, Next, Enabled, Sizes;
    if es == [] {
      FreshSizes(cfg);
    } else {
      var before := es[..|es| - 1];
      RunKeepsSizes(cfg, before);
      FreshInv(cfg);
      RunKeepsInv(Fresh(cfg), before);
      StepKeepsSizes(After(Fresh(cfg), before), es[|es| - 1]);
    }
  }

  lemma FreshSizes(cfg: Config)
    ensures Sizes(Fresh(cfg))
  {
  }

  // ----- over whole runs -----

  // A record of a listed table that is not a tombstone reads as a value put to its key, and
  // it is out of the table exactly if that value has at least the threshold's length.
  lemma ThresholdDecides(cfg: Config, es: seq<Event>, t: Table, k: Key)
    requires IsRun(Fresh(cfg), es) && t in ManTables(After(Fresh(cfg), es).disk)
    requires k in t.recs && t.recs[k] != Deleted
    ensures var a := Resolve(t.recs[k], LogsOf(After(Fresh(cfg), es).disk));
            && a.Found? && DoWrite(Record(k, Inline(a.value))) in es
            && (t.recs[k].Separated? <==> |a.value| >= cfg.threshold)
  {
    hide Next, Enabled, ManTables, LogsOf;
    ListedValuesAreSafe(cfg, es);
    RunKeepsSizes(cfg, es);
    ConfigIsFixed(Fresh(cfg), es);
  }
}
