// Runs of the store in which a crash at the wrong moment undoes more than a suffix of the
// unsynced writes.
module StoreLosses {
  import opened Keys
  import opened Records
  import opened Layers
  import opened Leveled
  import opened Store
  import opened StoreInv
  import opened StoreRuns
  import opened StoreWindows

  // ----- a run that gets there with a synced write at stake -----

  const FIRST := Record([1], Inline([10]))
  const SECOND := Record([1], Inline([20]))

  function Memory(mem: map<Key, Body>, sealed: Option<Sealed>, nextId: nat): Ram {
    Ram(mem, sealed, [], 0, nextId, None, None, None, [], {}, {}, Free)
  }

  function Files(wal: Wal, sealed: Option<seq<Record>>): Disk {
    Disk(map[], Manifest(0, 0, []), wal, sealed, map[0 := Blob([], 0)])
  }

  // A put is synced and sealed.
  lemma FirstWriteSealed(cfg: Config) returns (es: seq<Event>)
    ensures IsRun(Fresh(cfg), es)
    ensures After(Fresh(cfg), es) ==
            State(cfg, Files(Wal([], 0), Some([FIRST])),
                  Some(Memory(map[], Some(Sealed(map[[1] := Inline([10])], 0)), 1)),
                  Spec(map[[1] := [10]], map[[1] := [10]], []))
  {
    hide ManifestFor, Less;
    var s := Fresh(cfg);
    es := [];
    OpenFresh(cfg);
    Extend(s, es, DoOpen);
    es := es + [DoOpen];
    Extend(s, es, DoWrite(FIRST));
    es := es + [DoWrite(FIRST)];
    Extend(s, es, DoSync);
    es := es + [DoSync];
    assert [] + [FIRST] == [FIRST];
    assert [1] in After(s, es).ram.value.mem;
    Extend(s, es, DoSeal);
    es := es + [DoSeal];
  }

  lemma OpenFresh(cfg: Config)
    ensures Open(Fresh(cfg)) ==
            State(cfg, Files(Wal([], 0), None), Some(Memory(map[], None, 0)), Spec(map[], map[], []))
  {
    var s := Open(Fresh(cfg));
    assert ManTables(s.disk) == [];
    assert s.disk.files == map[] && s.disk.blobs == map[0 := Blob([], 0)];
    assert SealedRecs(s.disk) + s.disk.wal.recs == [];
    assert Overlay(ManTables(s.disk)) == map[];
    assert s.spec.now == map[];
  }

  // The key is overwritten and synced again.
  lemma SecondWriteSynced(cfg: Config) returns (es: seq<Event>)
    ensures IsRun(Fresh(cfg), es)
    ensures var s := After(Fresh(cfg), es);
            && Up(s) && s.cfg == cfg && s.disk == Files(Wal([SECOND], 1), Some([FIRST]))
            && s.spec.durable == map[[1] := [20]] && s.spec.since == []
  {
    hide ManifestFor, Less, Recovered, CrashView, ToMap;
    var s := Fresh(cfg);
    es := FirstWriteSealed(cfg);
    Extend(s, es, DoWrite(SECOND));
    es := es + [DoWrite(SECOND)];
    Extend(s, es, DoSync);
    es := es + [DoSync];
    assert [] + [SECOND] == [SECOND];
  }

  lemma CrashLeaves(s: State, blobs: map<nat, Blob>)
    requires s.disk == Files(Wal([SECOND], 1), Some([FIRST])) && blobs == s.disk.blobs
    ensures CanCrash(s, 1, blobs) && CanOpen(Crash(s, 1, blobs))
    ensures Crash(s, 1, blobs).disk == s.disk && Crash(s, 1, blobs).spec == s.spec
  {
    assert [SECOND][..1] == [SECOND];
  }

  lemma OpenLeaves(s: State)
    requires Inv(s) && CanOpen(s) && s.disk.sealed.Some?
    ensures Up(Open(s)) && Open(s).ram.value.lock == Recovering
    ensures Open(s).disk.sealed == s.disk.sealed && Open(s).disk.wal == s.disk.wal
    ensures AllowsLess(Open(s).spec, s.spec)
  {
    hide Recovered, ToMap, ManTables, Inv, AllowsLess, Kept;
    StepFollowsSpec(s, DoOpen);
  }

  // The process crashes and reopens.
  lemma SecondWriteRecovered(cfg: Config) returns (es: seq<Event>)
    ensures IsRun(Fresh(cfg), es)
    ensures var s := After(Fresh(cfg), es);
            && Up(s) && s.ram.value.lock == Recovering
            && s.disk.sealed == Some([FIRST]) && s.disk.wal == Wal([SECOND], 1)
            && !Admissible(s.spec, [1], Found([10]))
  {
    hide Less, Crash, Open, CanCrash, CanOpen, Inv, Next, Enabled, Admissible;
    var f := Fresh(cfg);
    es := SecondWriteSynced(cfg);
    var s := After(f, es);
    NotAdmissible(s.spec);
    CrashLeaves(s, s.disk.blobs);
    CrashEvents(s, 1, s.disk.blobs);
    Extend(f, es, DoCrash(1, s.disk.blobs));
    es := es + [DoCrash(1, s.disk.blobs)];
    var s1 := After(f, es);
    FreshInv(cfg);
    RunKeepsInv(f, es);
    OpenLeaves(s1);
    CrashEvents(s1, 1, s.disk.blobs);
    Extend(f, es, DoOpen);
    es := es + [DoOpen];
    assert !Admissible(Open(s1).spec, [1], Found([10]));
  }

  lemma NotAdmissible(sp: Spec)
    requires sp.durable == map[[1] := [20]] && sp.since == []
    ensures !Admissible(sp, [1], Found([10]))
  {
  }

  lemma CrashEvents(s: State, n: nat, blobs: map<nat, Blob>)
    ensures CanCrash(s, n, blobs) ==> Enabled(s, DoCrash(n, blobs)) && Next(s, DoCrash(n, blobs)) == Crash(s, n, blobs)
    ensures CanOpen(s) ==> Enabled(s, DoOpen) && Next(s, DoOpen) == Open(s)
  {
    hide Crash, Open, CanCrash, CanOpen;
  }

  // A run in which a synchronous flush may start goes on to its commit.
  lemma RunToCommit(cfg: Config, es: seq<Event>) returns (es': seq<Event>)
    requires IsRun(Fresh(cfg), es) && CanLockedFlush(After(Fresh(cfg), es))
    ensures IsRun(Fresh(cfg), es')
    ensures var s, s' := After(Fresh(cfg), es), After(Fresh(cfg), es');
            && Inv(s') && Up(s') && s'.ram.value.lock == Truncating(s.ram.value.lock == Recovering)
            && s'.disk.wal == s.disk.wal && s'.disk.sealed == s.disk.sealed && s'.spec == s.spec
  {
    hide Less, Inv, LockedFlush, FlushSync, FlushBuild, LockedCommit, CanLockedFlush, CanFlushSync, CanFlushBuild,
         CanLockedCommit, Next, Enabled;
    var f := Fresh(cfg);
    FreshInv(cfg);
    RunKeepsInv(f, es);
    var s := After(f, es);
    FlushReachesItsCommit(s);
    FlushEvents(s);
    Extend(f, es, DoLockedFlush);
    es' := es + [DoLockedFlush];
    FlushEvents(LockedFlush(s));
    Extend(f, es', DoFlushSync);
    es' := es' + [DoFlushSync];
    FlushEvents(FlushSync(LockedFlush(s)));
    Extend(f, es', DoFlushBuild);
    es' := es' + [DoFlushBuild];
    FlushEvents(FlushBuild(FlushSync(LockedFlush(s))));
    Extend(f, es', DoLockedCommit);
    es' := es' + [DoLockedCommit];
  }

  lemma FlushEvents(s: State)
    ensures CanLockedFlush(s) ==> Enabled(s, DoLockedFlush) && Next(s, DoLockedFlush) == LockedFlush(s)
    ensures CanFlushSync(s) ==> Enabled(s, DoFlushSync) && Next(s, DoFlushSync) == FlushSync(s)
    ensures CanFlushBuild(s) ==> Enabled(s, DoFlushBuild) && Next(s, DoFlushBuild) == FlushBuild(s)
    ensures CanLockedCommit(s) ==> Enabled(s, DoLockedCommit) && Next(s, DoLockedCommit) == LockedCommit(s)
  {
    hide LockedFlush, FlushSync, FlushBuild, LockedCommit, CanLockedFlush, CanFlushSync, CanFlushBuild, CanLockedCommit;
  }

  // A crash in the window then brings back the overwritten value of a key whose newer
  // value had been synced: the reading is not even admissible.
  lemma WindowLosesASyncedWrite(cfg: Config) returns (es: seq<Event>)
    ensures IsRun(Fresh(cfg), es)
    ensures var s := After(Fresh(cfg), es);
            && Up(s) && s.ram.value.lock == Truncating(true)
            && CrashView(InTheWindow(s.disk), 0, [1]) == Found([10])
            && !Admissible(s.spec, [1], Found([10]))
  {
    hide Less, Inv, CanLockedFlush, ManTables;
    es := SecondWriteRecovered(cfg);
    FreshInv(cfg);
    RunKeepsInv(Fresh(cfg), es);
    RecoveryAlwaysFlushes(After(Fresh(cfg), es));
    es := RunToCommit(cfg, es);
    var w := InTheWindow(After(Fresh(cfg), es).disk);
    assert SealedRecs(w) + w.wal.recs[..0] == [FIRST];
    assert [FIRST][..0] == [];
    assert ToMap([FIRST]) == map[[1] := Inline([10])];
  }

  // ----- a synchronous flush that mixes old and new -----

  const THIRD := Record([2], Inline([30]))

  function Writes(): seq<Record> {
    [FIRST, SECOND, THIRD]
  }

  // Three writes, none of them synced.
  lemma ThreeWrites(cfg: Config) returns (es: seq<Event>)
    ensures IsRun(Fresh(cfg), es)
    ensures var s := After(Fresh(cfg), es);
            && Idle(s) && CanLockedFlush(s) && s.disk == Files(Wal(Writes(), 0), None)
            && s.spec == Spec(map[[1] := [20], [2] := [30]], map[], Writes())
  {
    hide ManifestFor, Less, Recovered, CrashView, ToMap;
    var s := Fresh(cfg);
    es := [];
    OpenFresh(cfg);
    Extend(s, es, DoOpen);
    es := es + [DoOpen];
    Extend(s, es, DoWrite(FIRST));
    es := es + [DoWrite(FIRST)];
    Extend(s, es, DoWrite(SECOND));
    es := es + [DoWrite(SECOND)];
    Extend(s, es, DoWrite(THIRD));
    es := es + [DoWrite(THIRD)];
    assert [] + [FIRST] + [SECOND] + [THIRD] == Writes();
    assert [1] in After(s, es).ram.value.mem;
    assert map[[1] := [10]][[1] := [20]][[2] := [30]] == map[[1] := [20], [2] := [30]];
  }

  // A crash between the flush's commit and its truncation that leaves the first record
  // recovers the first value of one key beside the value another key got later: the map
  // after no prefix of the writes.
  lemma FlushMixesHistory(cfg: Config) returns (es: seq<Event>)
    ensures IsRun(Fresh(cfg), es)
    ensures var s := After(Fresh(cfg), es);
            && Up(s) && s.ram.value.lock == Truncating(false) && s.disk.wal == Wal(Writes(), 0)
            && CanCrash(s, 1, s.disk.blobs)
            && CrashView(s.disk, 1, [1]) == Found([10]) && CrashView(s.disk, 1, [2]) == Found([30])
            && forall m: nat :: m <= |Writes()| ==> !IsStateAfter(s.disk, 1, map[], Writes()[..m])
  {
    hide Less, Inv, CanLockedFlush, CrashView, ManTables, LogsOf;
    es := ThreeWrites(cfg);
    es := RunToCommit(cfg, es);
    var s := After(Fresh(cfg), es);
    var d := s.disk;
    assert s.disk.wal.recs[..1] == [FIRST] && Survivors(d, 1) == [FIRST];
    TruncatingStatesReplayOverNewest(s, 1, [1]);
    TruncatingStatesReplayOverNewest(s, 1, [2]);
    assert [FIRST][..0] == [];
    assert WrittenAll(s.spec.now, [FIRST]) == s.spec.now[[1] := [10]];
    forall m: nat | m <= |Writes()| ensures !IsStateAfter(d, 1, map[], Writes()[..m]) {
      NoPrefixMatches(m);
    }
    BlobsAreBounded(s);
  }

  lemma BlobsAreBounded(s: State)
    requires Inv(s)
    ensures BlobsOk(s.disk.blobs)
  {
    hide Less, CrashOk, RamOk, WellOrdered;
  }

  lemma NoPrefixMatches(m: nat)
    requires m <= |Writes()|
    ensures var p := WrittenAll(map[], Writes()[..m]);
            AnswerOf(p, [1]) != Found([10]) || AnswerOf(p, [2]) != Found([30])
  {
    hide ToMap;
    var ws := Writes();
    assert ws[..0] == [] && ws[..1] == [FIRST] && ws[..2] == [FIRST, SECOND] && ws[..3] == ws;
    assert [FIRST][..0] == [] && [FIRST, SECOND][..1] == [FIRST];
    assert WrittenAll(map[], [FIRST]) == map[[1] := [10]];
    assert WrittenAll(map[], [FIRST, SECOND]) == map[[1] := [20]];
    assert WrittenAll(map[], ws) == map[[1] := [20], [2] := [30]];
  }
}
