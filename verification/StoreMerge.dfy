// Compactions of either strategy keep the invariant, whatever flushes arrive between
// their critical sections.
module StoreMerge {
  import opened Keys
  import opened Records
  import opened Layers
  import opened Leveled
  import opened LeveledCommit
  import opened Store
  import opened StoreInv
  import opened StoreFrames
  import opened StoreFlush

  lemma MergeRunKeepsInv(s: State, i: nat, j: nat)
    requires Inv(s) && CanMergeRun(s, i, j)
    ensures Inv(MergeRun(s, i, j))
  {
    hide Less, WellOrdered, DiskOk, CrashOk, Live, ReaderOk, Merged;
    var s' := MergeRun(s, i, j);
    var d, r, r' := s.disk, s.ram.value, s'.ram.value;
    var run := r.tables[i..j];
    assert RunAt(r.tables, run, j == |r.tables|, i);
    assert IdsBelow(r.tables, r.nextId) by {
      TablesBelowNext(s);
    }
    forall rd | rd in r.readers ensures ReaderOk(rd, r', d) {
      ReaderFrame(rd, r, r', d);
    }
  }

  // The output of a run holds each key's newest record; a tombstone goes exactly when the
  // run reaches the oldest table.
  lemma MergeRunHolds(s: State, i: nat, j: nat, k: Key)
    requires CanMergeRun(s, i, j)
    ensures var run := s.ram.value.tables[i..j];
            var outs := MergeRun(s, i, j).ram.value.merge.value.outs;
            && outs.Some? && |outs.value| == 1
            && (k in outs.value[0].recs <==>
                Lookup(run, k).Some? && (Lookup(run, k) != Some(Deleted) || j < |s.ram.value.tables|))
            && (k in outs.value[0].recs ==> Lookup(run, k) == Some(outs.value[0].recs[k]))
  {
    hide Overlay;
    LookupOverlay(s.ram.value.tables[i..j], k);
  }

  lemma MergeLevelKeepsInv(s: State, p: LevelPick)
    requires Inv(s) && CanMergeLevel(s, p)
    ensures Inv(MergeLevel(s, p))
  {
    hide Less, WellOrdered, DiskOk, CrashOk, Live, ReaderOk, Merged, IsLevelPick;
    var s' := MergeLevel(s, p);
    var d, r, r' := s.disk, s.ram.value, s'.ram.value;
    assert r.tables[0..] == r.tables && r.tables[..0] == [];
    assert SinkAt(r.tables, p, 0);
    forall rd | rd in r.readers ensures ReaderOk(rd, r', d) {
      ReaderFrame(rd, r, r', d);
    }
  }

  lemma ReserveKeepsInv(s: State, outs: seq<Table>)
    requires Inv(s) && CanReserve(s, outs)
    ensures Inv(Reserve(s, outs))
  {
    hide Less, WellOrdered, DiskOk, CrashOk, Live, ReaderOk, Merged, IsSplit, PlanOk;
    var s' := Reserve(s, outs);
    var d, r, r' := s.disk, s.ram.value, s'.ram.value;
    assert IdsBelow(r.tables, r.nextId) by {
      TablesBelowNext(s);
    }
    forall o | o in outs ensures Unused(r', o.id) && o.id >= r.nextId {
      var i :| 0 <= i < |outs| && outs[i] == o;
    }
    assert outs[..0] == [];
    forall rd | rd in r.readers ensures ReaderOk(rd, r', d) {
      ReaderFrame(rd, r, r', d);
    }
  }

  lemma MergeBuildKeepsInv(s: State)
    requires Inv(s) && CanMergeBuild(s)
    ensures Inv(MergeBuild(s))
  {
    hide Less, WellOrdered, CrashOk, Live, ReaderOk, Merged, IsSplit, PlanOk, Sound;
    var s' := MergeBuild(s);
    var d, r, r' := s.disk, s.ram.value, s'.ram.value;
    var job := r.merge.value;
    var outs := job.outs.value;
    var out := outs[job.built];
    assert out in outs;
    forall t | t in outs[..job.built] ensures t.id != out.id {
      var i :| 0 <= i < job.built && outs[i] == t;
    }
    NewFileKeepsDisk(s.cfg, d, out.id, out.recs, s.spec);
    NewFileKeepsRam(s.cfg, r, d, out.id, out.recs, s.spec.now);
    assert outs[..job.built + 1] == outs[..job.built] + [out];
    forall rd | rd in r.readers ensures ReaderOk(rd, r', s'.disk) {
      ReaderFrame(rd, r, r', s'.disk);
    }
  }

  // ----- the commit -----

  lemma {:induction false} InstallOutside(pre: seq<Table>, rest: seq<Table>, inputs: seq<Table>, out: Table)
    requires forall t :: t in pre ==> t !in inputs
    ensures Install(pre + rest, inputs, out) == pre + Install(rest, inputs, out)
  {
    if pre == [] {
      assert pre + rest == rest;
    } else {
      assert (pre + rest)[1..] == pre[1..] + rest;
      InstallOutside(pre[1..], rest, inputs, out);
    }
  }

  lemma {:induction false} WithoutAll(run: seq<Table>, post: seq<Table>, inputs: seq<Table>)
    requires forall t :: t in run ==> t in inputs
    requires forall t :: t in post ==> t !in inputs
    ensures Without(run + post, inputs) == post
  {
    if run != [] {
      assert (run + post)[1..] == run[1..] + post;
      WithoutAll(run[1..], post, inputs);
    } else {
      assert run + post == post;
      if post != [] {
        WithoutAll([], post[1..], inputs);
        assert [] + post[1..] == post[1..];
      }
    }
  }

  lemma RunApart(tables: seq<Table>, run: seq<Table>, drop: bool, a: nat)
    requires RunAt(tables, run, drop, a) && DistinctIds(tables)
    ensures forall t :: t in tables[..a] || t in tables[a + |run|..] ==> t !in run
  {
    assert forall j :: 0 <= j < |run| ==> run[j] == tables[a + j];
  }

  // install_merge_result replaces the run in place.
  lemma InstallReplacesRun(tables: seq<Table>, run: seq<Table>, drop: bool, a: nat, out: Table)
    requires RunAt(tables, run, drop, a) && DistinctIds(tables)
    ensures Install(tables, run, out) == tables[..a] + [out] + tables[a + |run|..]
  {
    hide Without, DistinctIds;
    var pre, post := tables[..a], tables[a + |run|..];
    assert tables == pre + (run + post);
    RunApart(tables, run, drop, a);
    assert Install(run + post, run, out) == [out] + post by {
      assert (run + post)[1..] == run[1..] + post;
      WithoutAll(run[1..], post, run);
    }
    hide Install;
    InstallOutside(pre, run + post, run, out);
  }

  ghost function NextTables(r: Ram): seq<Table>
    requires r.merge.Some? && r.merge.value.outs.Some?
    requires r.merge.value.plan.Run? ==> |r.merge.value.outs.value| == 1
  {
    var job := r.merge.value;
    if job.plan.Run? then Install(r.tables, InputsOf(job.plan), job.outs.value[0])
    else Commit(r.tables, InputsOf(job.plan), job.outs.value)
  }

  // Under either strategy the commit keeps every visible record; the new list holds the
  // outputs and the tables that were not inputs; and the leveled order is kept.
  lemma CommitIsSound(cfg: Config, r: Ram)
    requires r.merge.Some? && r.merge.value.outs.Some?
    requires PlanOk(cfg, r.tables, r.merge.value.plan) && OutsOk(r.merge.value.plan, r.merge.value.outs.value)
    requires DistinctIds(r.tables) && (cfg.leveled ==> WellOrdered(r.tables))
    ensures SameVisible(NextTables(r), r.tables)
    ensures cfg.leveled ==> WellOrdered(NextTables(r))
    ensures forall t :: t in NextTables(r) <==>
              (t in r.tables && t !in InputsOf(r.merge.value.plan)) || t in r.merge.value.outs.value
    ensures forall t :: t in InputsOf(r.merge.value.plan) ==> t in r.tables
  {
    hide Less, WellOrdered, Visible, IsSplit, Merged, IsLevelPick;
    var job := r.merge.value;
    match job.plan
    case Run(run, drop) =>
      var a: nat :| RunAt(r.tables, run, drop, a);
      RunCommit(r.tables, run, drop, a, job.outs.value[0]);
    case Sink(p) =>
      var c: nat :| SinkAt(r.tables, p, c);
      SinkCommit(r.tables, p, c, job.outs.value);
  }

  lemma RunCommit(tables: seq<Table>, run: seq<Table>, drop: bool, a: nat, out: Table)
    requires RunAt(tables, run, drop, a) && DistinctIds(tables) && out.recs == Merged(run, drop)
    ensures SameVisible(Install(tables, run, out), tables)
    ensures forall t :: t in Install(tables, run, out) <==> (t in tables && t !in run) || t == out
    ensures forall t :: t in run ==> t in tables
  {
    hide Visible, Merged, Install;
    var pre, post := tables[..a], tables[a + |run|..];
    InstallReplacesRun(tables, run, drop, a, out);
    assert tables == pre + run + post;
    MergeRunKeepsVisible(pre, run, post, drop, out);
    forall t ensures t in pre + [out] + post <==> (t in tables && t !in run) || t == out {
      RunMembers(tables, run, drop, a, t);
    }
  }

  lemma RunMembers(tables: seq<Table>, run: seq<Table>, drop: bool, a: nat, t: Table)
    requires RunAt(tables, run, drop, a) && DistinctIds(tables)
    ensures t in tables && t !in run <==> t in tables[..a] || t in tables[a + |run|..]
  {
    assert forall j :: 0 <= j < |run| ==> run[j] == tables[a + j];
    if t in tables {
      var i :| 0 <= i < |tables| && tables[i] == t;
      if a <= i < a + |run| {
        assert run[i - a] == t;
      }
    }
  }

  lemma SinkCommit(tables: seq<Table>, p: LevelPick, c: nat, outs: seq<Table>)
    requires SinkAt(tables, p, c) && WellOrdered(tables)
    requires IsSplit(outs, p.Dest(), Merged(p.Inputs(), p.drop))
    ensures SameVisible(Commit(tables, p.Inputs(), outs), tables)
    ensures WellOrdered(Commit(tables, p.Inputs(), outs))
    ensures forall t :: t in Commit(tables, p.Inputs(), outs) <==> (t in tables && t !in p.Inputs()) || t in outs
    ensures forall t :: t in p.Inputs() ==> t in tables
  {
    hide Less, WellOrdered, Visible, IsSplit, Merged, IsLevelPick, Commit;
    var late, rest := tables[..c], tables[c..];
    assert tables == late + rest;
    assert Ready(late, rest, p);
    CommitKeepsVisible(late, rest, p, outs);
    CommitKeepsOrder(late, rest, p, outs);
    forall t ensures t in Commit(tables, p.Inputs(), outs) <==> (t in tables && t !in p.Inputs()) || t in outs {
      CommitMembers(tables, p.Inputs(), outs, t);
    }
    forall t | t in p.Inputs() ensures t in tables {
      InputsAreListed(rest, p, t);
    }
  }

  // ----- the commit on disk and in memory -----

  lemma MergedIsSound(inputs: seq<Table>, drop: bool, gen: nat, limit: nat)
    requires AllSound(inputs, gen, limit)
    ensures Sound(Merged(inputs, drop), gen, limit)
  {
    hide Merged, Overlay;
    forall k | k in Merged(inputs, drop) && Merged(inputs, drop)[k].Separated?
      ensures var p := Merged(inputs, drop)[k].ptr; p.gen == gen && p.offset + p.len <= limit
    {
      MergedBody(inputs, drop, k);
      LookupOverlay(inputs, k);
      var i := LookupSome(inputs, k);
      assert inputs[i] in inputs;
    }
  }

  lemma MergedBody(inputs: seq<Table>, drop: bool, k: Key)
    requires k in Merged(inputs, drop)
    ensures k in Overlay(inputs) && Merged(inputs, drop)[k] == Overlay(inputs)[k]
  {
    hide Overlay;
  }

  lemma OutsAreSound(plan: Plan, outs: seq<Table>, gen: nat, limit: nat)
    requires OutsOk(plan, outs) && AllSound(InputsOf(plan), gen, limit)
    ensures AllSound(outs, gen, limit)
  {
    hide Less, Merged, MinKey, MaxKey;
    var drop := if plan.Run? then plan.drop else plan.p.drop;
    MergedIsSound(InputsOf(plan), drop, gen, limit);
    assert MergedBy(plan) == Merged(InputsOf(plan), drop);
    forall o | o in outs ensures Sound(o.recs, gen, limit) {
      forall k | k in o.recs ensures k in MergedBy(plan) && o.recs[k] == MergedBy(plan)[k] {
      }
    }
  }

  lemma {:induction false} InsertDistinct(s: seq<Table>, t: Table)
    requires DistinctIds(s) && NoneHas(s, t.id)
    ensures DistinctIds(Insert(s, t))
  {
    hide SortsBefore;
    if s != [] && !SortsBefore(t, s[0]) {
      InsertDistinct(s[1..], t);
      InsertPermutes(s[1..], t);
      var rest := Insert(s[1..], t);
      forall u | u in rest ensures u.id != s[0].id {
        assert u in multiset(rest);
        assert u == t || u in s[1..];
      }
    }
  }

  lemma {:induction false} ReorderDistinct(s: seq<Table>)
    requires DistinctIds(s)
    ensures DistinctIds(Reorder(s))
  {
    hide Insert;
    if s != [] {
      var init, last := s[..|s| - 1], s[|s| - 1];
      ReorderDistinct(init);
      forall u | u in Reorder(init) ensures u.id != last.id {
        ReorderMembers(init, u);
      }
      InsertDistinct(Reorder(init), last);
    }
  }

  lemma {:induction false} WithoutDistinct(s: seq<Table>, gone: seq<Table>)
    requires DistinctIds(s)
    ensures DistinctIds(Without(s, gone))
  {
    if s != [] {
      WithoutDistinct(s[1..], gone);
      forall t | t in Without(s[1..], gone) ensures t.id != s[0].id {
        WithoutMembers(s[1..], gone, t);
      }
    }
  }

  lemma ConcatDistinct(a: seq<Table>, b: seq<Table>)
    requires DistinctIds(a) && DistinctIds(b) && forall o :: o in b ==> NoneHas(a, o.id)
    ensures DistinctIds(a + b)
  {
    var all := a + b;
    forall i, j | 0 <= i < j < |all| ensures all[i].id != all[j].id {
      if j < |a| {
      } else if i >= |a| {
        assert all[i] == b[i - |a|] && all[j] == b[j - |a|];
      } else {
        assert all[i] in a && all[j] in b;
      }
    }
  }

  lemma NextTablesDistinct(cfg: Config, r: Ram)
    requires r.merge.Some? && r.merge.value.outs.Some?
    requires PlanOk(cfg, r.tables, r.merge.value.plan) && OutsOk(r.merge.value.plan, r.merge.value.outs.value)
    requires DistinctIds(r.tables) && IdsOk(cfg, r)
    ensures DistinctIds(NextTables(r))
  {
    hide Less, IsSplit, Merged, Install, Reorder;
    var job := r.merge.value;
    var outs := job.outs.value;
    match job.plan
    case Run(run, drop) =>
      var a: nat :| RunAt(r.tables, run, drop, a);
      InstallReplacesRun(r.tables, run, drop, a, outs[0]);
      assert outs[0] in outs;
    case Sink(p) =>
      var kept := Without(r.tables, p.Inputs());
      WithoutDistinct(r.tables, p.Inputs());
      forall o | o in outs ensures NoneHas(kept, o.id) {
        forall t | t in kept ensures t.id != o.id {
          WithoutMembers(r.tables, p.Inputs(), t);
        }
      }
      ConcatDistinct(kept, outs);
      ReorderDistinct(kept + outs);
  }

  lemma MergeCommitFacts(s: State)
    requires Inv(s) && CanMergeCommit(s)
    ensures var s' := MergeCommit(s);
            && s'.ram.value.tables == NextTables(s.ram.value)
            && DiskOk(s.cfg, s'.disk) && ManTables(s'.disk) == s'.ram.value.tables
            && SameVisible(s'.ram.value.tables, s.ram.value.tables)
  {
    hide Less, WellOrdered, CrashOk, MemOk, FlushOk, GcOk, ReadersOk, Live, IsSplit, Merged, PlanOk, Visible, Install,
         Commit;
    var s' := MergeCommit(s);
    var d, r, r' := s.disk, s.ram.value, s'.ram.value;
    var job := r.merge.value;
    var outs := job.outs.value;
    assert outs[..job.built] == outs;
    CommitIsSound(s.cfg, r);
    NextTablesDistinct(s.cfg, r);
    ManTablesBacked(s.cfg, d);
    ManifestReadsBack(d, r');
    OutsAreSound(job.plan, outs, r.gen, d.blobs[r.gen].synced);
    forall l | l in s'.disk.man.tables ensures l.id in d.files {
      var i :| 0 <= i < |s'.disk.man.tables| && s'.disk.man.tables[i] == l;
      assert r'.tables[i] in r'.tables;
    }
  }

  lemma MergeCommitIds(s: State)
    requires Inv(s) && CanMergeCommit(s)
    ensures IdsOk(s.cfg, MergeCommit(s).ram.value)
  {
    hide Less, WellOrdered, CrashOk, MemOk, FlushOk, GcOk, ReadersOk, Live, IsSplit, Merged, PlanOk, SameVisible,
         Install, Commit, DiskOk;
    var s' := MergeCommit(s);
    var r, r' := s.ram.value, s'.ram.value;
    var job := r.merge.value;
    MergeCommitFacts(s);
    TablesBelowNext(s);
    assert DistinctIds(r.tables) by {
      TablesDistinct(s);
    }
    assert OrderedIfLeveled(s) by {
      TablesOrdered(s);
    }
    CommitIsSound(s.cfg, r);
    OutLevels(s.cfg, r.tables, job.plan, job.outs.value);
    assert r'.gc == None by {
      FreeMeansNoGc(s);
    }
    forall id | Unused(r, id) && NoneHas(job.outs.value, id) ensures Unused(r', id) {
    }
    forall g | g in r'.garbage ensures g < r'.nextId && NoneHas(r'.tables, g) {
      if g !in r.garbage {
        var t :| t in InputsOf(job.plan) && t.id == g;
        forall u | u in r'.tables ensures u.id != g {
          if u in r.tables && u.id == t.id {
            SameIdSameTable(r.tables, u, t);
          }
        }
      }
    }
  }

  ghost predicate OrderedIfLeveled(s: State)
    requires Up(s)
  {
    s.cfg.leveled ==> WellOrdered(s.ram.value.tables)
  }

  lemma TablesDistinct(s: State)
    requires Inv(s) && Up(s)
    ensures DistinctIds(s.ram.value.tables)
  {
    hide Less, WellOrdered, CrashOk, MemOk, FlushOk, MergeOk, GcOk, IdsOk, ReadersOk, Live;
  }

  lemma TablesOrdered(s: State)
    requires Inv(s) && Up(s)
    ensures OrderedIfLeveled(s)
  {
    hide Less, WellOrdered, CrashOk, MemOk, FlushOk, MergeOk, GcOk, IdsOk, ReadersOk, Live;
  }

  lemma FreeMeansNoGc(s: State)
    requires Inv(s) && Idle(s)
    ensures s.ram.value.gc == None
  {
    hide Less, WellOrdered, CrashOk, MemOk, FlushOk, MergeOk, IdsOk, ReadersOk, Live;
  }

  lemma SameIdSameTable(tables: seq<Table>, u: Table, t: Table)
    requires DistinctIds(tables) && u in tables && t in tables && u.id == t.id
    ensures u == t
  {
  }

  // Outputs of a leveled merge are never in level 0, where numbers give the age.
  lemma OutLevels(cfg: Config, tables: seq<Table>, plan: Plan, outs: seq<Table>)
    requires OutsOk(plan, outs) && PlanOk(cfg, tables, plan)
    ensures cfg.leveled ==> forall o :: o in outs ==> o.level > 0
  {
    hide Less, Merged, MinKey, MaxKey;
  }

  lemma MergeCommitKeepsInv(s: State)
    requires Inv(s) && CanMergeCommit(s)
    ensures Inv(MergeCommit(s))
  {
    hide Less, WellOrdered, Admissible, ReaderOk, IsSplit, Merged, PlanOk, Visible, Install, Commit, IdsOk, DiskOk;
    var s' := MergeCommit(s);
    var d, d', r, r' := s.disk, s'.disk, s.ram.value, s'.ram.value;
    MergeCommitFacts(s);
    MergeCommitIds(s);
    SameVisibleReads(r'.tables, r.tables, LogsOf(d));
    forall n: nat, k: Key | d'.wal.synced <= n <= |d'.wal.recs| ensures Admissible(s.spec, k, CrashView(d', n, k)) {
      assert Admissible(s.spec, k, CrashView(d, n, k));
      assert CrashView(d', n, k) == CrashView(d, n, k);
    }
    forall k ensures View(Upper(r'), r'.tables, LogsOf(d'), k) == AnswerOf(s.spec.now, k) {
      assert View(Upper(r), r.tables, LogsOf(d), k) == AnswerOf(s.spec.now, k);
    }
    MergeCommitReaders(s);
  }

  // A file that was live or awaiting its unlink still is one of the two.
  lemma CommitKeepsTrack(s: State, id: nat)
    requires Inv(s) && CanMergeCommit(s) && (id in s.ram.value.garbage || !NoneHas(s.ram.value.tables, id))
    ensures var r' := MergeCommit(s).ram.value; id in r'.garbage || !NoneHas(r'.tables, id)
  {
    hide Less, WellOrdered, CrashOk, MemOk, FlushOk, GcOk, IdsOk, ReadersOk, Live, Install, Commit, IsSplit, Merged,
         Visible, ManifestFor;
    var r := s.ram.value;
    CommitIsSound(s.cfg, r);
    if id !in r.garbage {
      var u :| u in r.tables && u.id == id;
      if u in InputsOf(r.merge.value.plan) {
        assert u.id in Ids(InputsOf(r.merge.value.plan));
      } else {
        assert u in NextTables(r);
      }
    }
  }

  lemma MergeCommitReaders(s: State)
    requires Inv(s) && CanMergeCommit(s)
    ensures ReadersOk(MergeCommit(s).ram.value, MergeCommit(s).disk)
  {
    hide Less, DiskOk, CrashOk, MemOk, FlushOk, MergeOk, GcOk, IdsOk, GensOk, Live, AllSound, Install, Commit, NoneHas;
    var s' := MergeCommit(s);
    var d, d', r, r' := s.disk, s'.disk, s.ram.value, s'.ram.value;
    forall rd | rd in r'.readers ensures ReaderOk(rd, r', d') {
      assert ReaderOk(rd, r, d);
      forall t | t in rd.tables ensures t.id in r'.garbage || !NoneHas(r'.tables, t.id) {
        CommitKeepsTrack(s, t.id);
      }
    }
  }
}
