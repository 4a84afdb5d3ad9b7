// How much of the history a crash can undo. Outside the last stretch of a synchronous
// flush it is a suffix of the writes, for all keys at once. Between the flush's manifest
// commit and its log truncation it may be single keys, and in one window of recovery it
// may be durable data. Each failure comes with its exact condition.
module StoreWindows {
  import opened Keys
  import opened Records
  import opened Layers
  import opened Leveled
  import opened ValueLog
  import opened Store
  import opened StoreInv
  import opened StoreWrites
  import opened StoreFrames
  import opened StoreFlush

  function WrittenAll(m: map<Key, Bytes>, ws: seq<Record>): map<Key, Bytes> {
    if ws == [] then m else Written(WrittenAll(m, ws[..|ws| - 1]), ws[|ws| - 1])
  }

  lemma {:induction false} ReplayIsWriting(m: map<Key, Bytes>, ws: seq<Record>, k: Key)
    requires AllPlain(ws)
    ensures AnswerOf(WrittenAll(m, ws), k) == if k in ToMap(ws) then Effect(ToMap(ws)[k]) else AnswerOf(m, k)
  {
    if ws != [] {
      ReplayIsWriting(m, ws[..|ws| - 1], k);
      WrittenAnswers(WrittenAll(m, ws[..|ws| - 1]), ws[|ws| - 1], k);
    }
  }

  lemma PlainResolve(b: Body, logs: Logs)
    requires Plain(b)
    ensures Resolve(b, logs) == Effect(b)
  {
  }

  // What a process would recover if wal.log were lost altogether.
  function Base(d: Disk): map<Key, Bytes> {
    Recovered(d.(wal := Wal([], 0)))
  }

  lemma BaseAnswers(cfg: Config, d: Disk, k: Key)
    requires DiskOk(cfg, d)
    ensures View(ToMap(SealedRecs(d)), ManTables(d), LogsOf(d), k) == AnswerOf(Base(d), k)
  {
    hide Less, WellOrdered;
    var d0 := d.(wal := Wal([], 0));
    assert SealedRecs(d0) + d0.wal.recs[..0] == SealedRecs(d) && SealedRecs(d0) + d0.wal.recs == SealedRecs(d);
    LogsArePlain(cfg, d);
    var l := LogsOf(d);
    assert LogsAgree(l, l, d.man.gen, d.blobs[d.man.gen].synced);
    ViewAgrees(ToMap(SealedRecs(d)), ManTables(d), l, l, d.man.gen, d.blobs[d.man.gen].synced, k);
    LookupOverlay(ManTables(d), k);
  }

  // A crash that leaves n records of wal.log recovers, for all keys at once, the map
  // after the first n of the writes logged there.
  lemma CrashRecoversPrefix(cfg: Config, d: Disk, n: nat, k: Key)
    requires DiskOk(cfg, d) && n <= |d.wal.recs|
    ensures CrashView(d, n, k) == AnswerOf(WrittenAll(Base(d), d.wal.recs[..n]), k)
  {
    hide Less, WellOrdered, Base;
    var ws := d.wal.recs[..n];
    ToMapAppend(SealedRecs(d), ws);
    PlainReplay(ws);
    BaseAnswers(cfg, d, k);
    ReplayIsWriting(Base(d), ws, k);
  }

  // Every log record, sealed ones first.
  function Logged(d: Disk): seq<Record> {
    SealedRecs(d) + d.wal.recs
  }

  // What a process would recover if both logs were lost altogether.
  function Bare(d: Disk): map<Key, Bytes> {
    Recovered(d.(wal := Wal([], 0), sealed := None))
  }

  lemma {:induction false} WrittenAllAppend(m: map<Key, Bytes>, a: seq<Record>, b: seq<Record>)
    ensures WrittenAll(m, a + b) == WrittenAll(WrittenAll(m, a), b)
  {
    if b == [] {
      assert a + b == a;
    } else {
      assert (a + b)[..|a + b| - 1] == a + b[..|b| - 1];
      WrittenAllAppend(m, a, b[..|b| - 1]);
    }
  }

  // While no synchronous flush is between its commit and its truncation, replaying all of
  // both logs gives the newest map.
  lemma LogsGiveNewest(s: State, k: Key)
    requires Inv(s) && Up(s) && !s.ram.value.lock.Truncating?
    ensures CrashView(s.disk, |s.disk.wal.recs|, k) == AnswerOf(s.spec.now, k)
  {
    hide Less, WellOrdered, CrashOk, ReadersOk, MergeOk, FlushOk, GcOk, IdsOk, ToMap, View;
    var d, r := s.disk, s.ram.value;
    assert d.wal.recs[..|d.wal.recs|] == d.wal.recs;
    ToMapAppend(SealedRecs(d), d.wal.recs);
    NothingLogged();
    assert View(Upper(r), r.tables, LogsOf(d), k) == AnswerOf(s.spec.now, k);
    if r.lock == Dropping {
      AbsorbedLayerDrops(r.mem, ToMap(d.sealed.value), r.tables, LogsOf(d), k);
      assert Upper(r) == r.mem;
    } else {
      assert Upper(r) == ToMap(SealedRecs(d)) + ToMap(d.wal.recs);
    }
  }

  // In all those states the newest map is the logged writes over what lies below the
  // active log, so losing a suffix of that log loses exactly a suffix of the writes.
  lemma CrashLosesOnlyASuffix(s: State, n: nat)
    requires Inv(s) && Up(s) && !s.ram.value.lock.Truncating? && n <= |s.disk.wal.recs|
    ensures forall k :: AnswerOf(s.spec.now, k) == AnswerOf(WrittenAll(Base(s.disk), s.disk.wal.recs), k)
    ensures forall k :: CrashView(s.disk, n, k) == AnswerOf(WrittenAll(Base(s.disk), s.disk.wal.recs[..n]), k)
  {
    hide Less, WellOrdered, Base, CrashOk, CrashView, RamOk;
    var d := s.disk;
    assert d.wal.recs[..|d.wal.recs|] == d.wal.recs;
    forall k
      ensures AnswerOf(s.spec.now, k) == AnswerOf(WrittenAll(Base(d), d.wal.recs), k)
      ensures CrashView(d, n, k) == AnswerOf(WrittenAll(Base(d), d.wal.recs[..n]), k)
    {
      CrashRecoversPrefix(s.cfg, d, n, k);
      CrashRecoversPrefix(s.cfg, d, |d.wal.recs|, k);
      LogsGiveNewest(s, k);
    }
  }

  // The same with the sealed log counted among the writes.
  lemma NewestIsLogged(s: State, k: Key)
    requires Inv(s) && Up(s) && !s.ram.value.lock.Truncating?
    ensures AnswerOf(s.spec.now, k) == AnswerOf(WrittenAll(Bare(s.disk), Logged(s.disk)), k)
  {
    hide Inv, CrashView, Bare, WrittenAll, AnswerOf;
    LogsGiveNewest(s, k);
    DiskIsOk(s);
    LoggedOverBare(s.cfg, s.disk, k);
  }

  lemma DiskIsOk(s: State)
    requires Inv(s)
    ensures DiskOk(s.cfg, s.disk)
  {
    hide DiskOk, CrashOk, RamOk;
  }

  lemma LoggedOverBare(cfg: Config, d: Disk, k: Key)
    requires DiskOk(cfg, d)
    ensures CrashView(d, |d.wal.recs|, k) == AnswerOf(WrittenAll(Bare(d), Logged(d)), k)
  {
    hide Less, WellOrdered, Recovered, WrittenAll, AnswerOf, View, ToMap;
    var d0 := d.(sealed := None, wal := Wal(Logged(d), 0));
    assert d0.wal.recs[..|d0.wal.recs|] == Logged(d);
    Nothing(Logged(d));
    assert d.wal.recs[..|d.wal.recs|] == d.wal.recs;
    assert ManTables(d0) == ManTables(d);
    CrashRecoversPrefix(cfg, d0, |Logged(d)|, k);
  }

  // ----- between a synchronous flush's commit and its truncation -----

  // The log records that survive when n of wal.log do.
  function Survivors(d: Disk, n: nat): seq<Record>
    requires n <= |d.wal.recs|
  {
    SealedRecs(d) + d.wal.recs[..n]
  }

  // The surviving records are written over the newest map instead, so an older value of
  // one key may appear beside a newer value of another.
  lemma TruncatingStatesReplayOverNewest(s: State, n: nat, k: Key)
    requires Inv(s) && Up(s) && s.ram.value.lock.Truncating? && n <= |s.disk.wal.recs|
    ensures CrashView(s.disk, n, k) == AnswerOf(WrittenAll(s.spec.now, Survivors(s.disk, n)), k)
  {
    hide Less, WellOrdered, CrashOk, ReadersOk, MergeOk;
    var d, r := s.disk, s.ram.value;
    var ws := Survivors(d, n);
    PlainReplay(ws);
    assert Upper(r) == map[];
    assert View(Upper(r), r.tables, LogsOf(d), k) == AnswerOf(s.spec.now, k);
    ReplayIsWriting(s.spec.now, ws, k);
  }

  // The newest map is recovered exactly when the lost records gave no key of a surviving
  // record a different final effect.
  lemma TruncatingCrashExact(s: State, n: nat)
    requires Inv(s) && Up(s) && s.ram.value.lock.Truncating? && n <= |s.disk.wal.recs|
    ensures var left, all := ToMap(Survivors(s.disk, n)), ToMap(Logged(s.disk));
            (forall k :: CrashView(s.disk, n, k) == AnswerOf(s.spec.now, k)) <==>
            (forall k :: k in left ==> k in all && Effect(left[k]) == Effect(all[k]))
  {
    hide Less, WellOrdered, CrashOk, ReadersOk, MergeOk;
    var d, r := s.disk, s.ram.value;
    var left, all := ToMap(Survivors(d, n)), ToMap(Logged(d));
    assert Logged(d) == Survivors(d, n) + d.wal.recs[n..];
    ToMapAppend(Survivors(d, n), d.wal.recs[n..]);
    LogsArePlain(s.cfg, d);
    assert Upper(r) == map[];
    forall k
      ensures CrashView(d, n, k) == AnswerOf(s.spec.now, k) <==> (k in left ==> Effect(left[k]) == Effect(all[k]))
    {
      assert View(Upper(r), r.tables, LogsOf(d), k) == AnswerOf(s.spec.now, k);
      if k in left {
        PlainReplay(Survivors(d, n));
        PlainResolve(left[k], LogsOf(d));
        PlainResolve(all[k], LogsOf(d));
        assert Resolve(all[k], LogsOf(d)) == Read(r.tables, LogsOf(d), k);
      }
    }
  }

  // ----- when what is recovered there is a prefix of history -----

  // The slice leaves k with the effect it has in m.
  ghost predicate LeavesKey(m: map<Key, Bytes>, slice: seq<Record>, k: Key) {
    k in ToMap(slice) ==> Effect(ToMap(slice)[k]) == AnswerOf(m, k)
  }

  // Of the writes ws over base, those from the n-th to the m-th change no key of the
  // first n, and those from the m-th on change no other key.
  ghost predicate LooksLikePrefix(base: map<Key, Bytes>, ws: seq<Record>, n: nat, m: nat)
    requires n <= m <= |ws|
  {
    && (forall k :: k in ToMap(ws[..n]) ==> LeavesKey(WrittenAll(base, ws[..n]), ws[n..m], k))
    && (forall k :: k !in ToMap(ws[..n]) ==> LeavesKey(WrittenAll(base, ws[..m]), ws[m..], k))
  }

  // The first n writes applied once more, over all of them.
  function Mixed(base: map<Key, Bytes>, ws: seq<Record>, n: nat): map<Key, Bytes>
    requires n <= |ws|
  {
    WrittenAll(WrittenAll(base, ws), ws[..n])
  }

  lemma MixedAnswers(base: map<Key, Bytes>, ws: seq<Record>, n: nat, k: Key)
    requires AllPlain(ws) && n <= |ws|
    ensures AnswerOf(Mixed(base, ws, n), k) ==
            if k in ToMap(ws[..n]) then AnswerOf(WrittenAll(base, ws[..n]), k) else AnswerOf(WrittenAll(base, ws), k)
  {
    ReplayIsWriting(WrittenAll(base, ws), ws[..n], k);
    ReplayIsWriting(base, ws[..n], k);
  }

  lemma SliceLeaves(base: map<Key, Bytes>, ws: seq<Record>, n: nat, m: nat, k: Key)
    requires AllPlain(ws) && n <= m <= |ws|
    ensures LeavesKey(WrittenAll(base, ws[..n]), ws[n..m], k) <==>
            AnswerOf(WrittenAll(base, ws[..n]), k) == AnswerOf(WrittenAll(base, ws[..m]), k)
  {
    assert ws[..m] == ws[..n] + ws[n..m];
    WrittenAllAppend(base, ws[..n], ws[n..m]);
    ReplayIsWriting(WrittenAll(base, ws[..n]), ws[n..m], k);
  }

  lemma MixedIsPrefixExact(base: map<Key, Bytes>, ws: seq<Record>, n: nat, m: nat)
    requires AllPlain(ws) && n <= m <= |ws|
    ensures (forall k :: AnswerOf(Mixed(base, ws, n), k) == AnswerOf(WrittenAll(base, ws[..m]), k)) <==>
            LooksLikePrefix(base, ws, n, m)
  {
    hide ToMap, WrittenAll, Mixed, LeavesKey, AnswerOf, AllPlain;
    assert ws[..|ws|] == ws && ws[m..|ws|] == ws[m..];
    forall k
      ensures AnswerOf(Mixed(base, ws, n), k) == AnswerOf(WrittenAll(base, ws[..m]), k) <==>
              if k in ToMap(ws[..n]) then LeavesKey(WrittenAll(base, ws[..n]), ws[n..m], k)
              else LeavesKey(WrittenAll(base, ws[..m]), ws[m..], k)
    {
      MixedAnswers(base, ws, n, k);
      SliceLeaves(base, ws, n, m, k);
      SliceLeaves(base, ws, m, |ws|, k);
    }
  }

  // A shorter prefix than what survived can only match if the surviving one does.
  lemma ShorterPrefix(base: map<Key, Bytes>, ws: seq<Record>, n: nat, m: nat)
    requires AllPlain(ws) && m <= n <= |ws|
    requires forall k :: AnswerOf(Mixed(base, ws, n), k) == AnswerOf(WrittenAll(base, ws[..m]), k)
    ensures forall k :: AnswerOf(Mixed(base, ws, n), k) == AnswerOf(WrittenAll(base, ws[..n]), k)
  {
    hide ToMap, WrittenAll, Mixed, LeavesKey, AnswerOf, AllPlain;
    forall k ensures AnswerOf(Mixed(base, ws, n), k) == AnswerOf(WrittenAll(base, ws[..n]), k) {
      MixedAnswers(base, ws, n, k);
      if k !in ToMap(ws[..n]) {
        UntouchedKey(base, ws, n, m, k);
      }
    }
  }

  lemma UntouchedKey(base: map<Key, Bytes>, ws: seq<Record>, n: nat, m: nat, k: Key)
    requires AllPlain(ws) && m <= n <= |ws| && k !in ToMap(ws[..n])
    ensures AnswerOf(WrittenAll(base, ws[..m]), k) == AnswerOf(WrittenAll(base, ws[..n]), k)
  {
    assert ws[..n] == ws[..m] + ws[m..n];
    ToMapAppend(ws[..m], ws[m..n]);
    ReplayIsWriting(base, ws[..m], k);
    ReplayIsWriting(base, ws[..n], k);
  }

  ghost predicate IsStateAfter(d: Disk, n: nat, base: map<Key, Bytes>, ws: seq<Record>)
    requires n <= |d.wal.recs|
  {
    forall k :: CrashView(d, n, k) == AnswerOf(WrittenAll(base, ws), k)
  }

  // A crash there that leaves n records recovers the map after some prefix of the logged
  // writes exactly when the log looks like one: for some m, the records after the
  // surviving ones and before the m-th change none of their keys, and the rest changes no
  // other key.
  lemma FlushWindowPrefixExact(s: State, n: nat)
    requires Inv(s) && CanLockedCommit(s) && n <= |s.disk.wal.recs|
    ensures var base, ws, d := Bare(s.disk), Logged(s.disk), LockedCommit(s).disk;
            d.wal == s.disk.wal &&
            ((exists m: nat :: m <= |ws| && IsStateAfter(d, n, base, ws[..m])) <==>
             (exists m: nat ::
                |Survivors(s.disk, n)| <= m <= |ws| && LooksLikePrefix(base, ws, |Survivors(s.disk, n)|, m)))
  {
    hide LockedCommit, CrashView, Inv, LooksLikePrefix, Mixed, WrittenAll, Bare, AnswerOf, CanLockedCommit, AllPlain;
    var base, ws, j := Bare(s.disk), Logged(s.disk), |Survivors(s.disk, n)|;
    assert ws[..j] == Survivors(s.disk, n);
    CommittedCrashIsMixed(s, n);
    var d := LockedCommit(s).disk;
    if m: nat :| m <= |ws| && IsStateAfter(d, n, base, ws[..m]) {
      SameAsMixed(d, n, base, ws, j, m);
      if m < j {
        ShorterPrefix(base, ws, j, m);
        MixedIsPrefixExact(base, ws, j, j);
        assert LooksLikePrefix(base, ws, j, j);
      } else {
        MixedIsPrefixExact(base, ws, j, m);
        assert LooksLikePrefix(base, ws, j, m);
      }
    }
    if m: nat :| j <= m <= |ws| && LooksLikePrefix(base, ws, j, m) {
      MixedIsPrefixExact(base, ws, j, m);
      SameAsMixed(d, n, base, ws, j, m);
      assert IsStateAfter(d, n, base, ws[..m]);
    }
  }

  lemma SameAsMixed(d: Disk, n: nat, base: map<Key, Bytes>, ws: seq<Record>, j: nat, m: nat)
    requires n <= |d.wal.recs| && j <= |ws| && m <= |ws|
    requires forall k :: CrashView(d, n, k) == AnswerOf(Mixed(base, ws, j), k)
    ensures IsStateAfter(d, n, base, ws[..m]) <==>
            forall k :: AnswerOf(Mixed(base, ws, j), k) == AnswerOf(WrittenAll(base, ws[..m]), k)
  {
    hide CrashView, Mixed, WrittenAll, AnswerOf;
  }

  lemma CommittedCrashIsMixed(s: State, n: nat)
    requires Inv(s) && CanLockedCommit(s) && n <= |s.disk.wal.recs|
    ensures LockedCommit(s).disk.wal == s.disk.wal && AllPlain(Logged(s.disk))
    ensures Logged(s.disk)[..|Survivors(s.disk, n)|] == Survivors(s.disk, n)
    ensures forall k :: CrashView(LockedCommit(s).disk, n, k) ==
              AnswerOf(Mixed(Bare(s.disk), Logged(s.disk), |Survivors(s.disk, n)|), k)
  {
    hide Less, CrashOk, RamOk, ManifestFor, ToMap, WrittenAll, Bare, CrashView, AnswerOf, WellOrdered, ManTables;
    var s' := LockedCommit(s);
    var ws, left := Logged(s.disk), Survivors(s.disk, n);
    LockedCommitKeepsInv(s);
    assert ws[..|left|] == left;
    forall k ensures CrashView(s'.disk, n, k) == AnswerOf(Mixed(Bare(s.disk), ws, |left|), k) {
      TruncatingStatesReplayOverNewest(s', n, k);
      NewestIsLogged(s, k);
      SameMapSameReplay(s.spec.now, WrittenAll(Bare(s.disk), ws), left, k);
    }
  }

  lemma SameMapSameReplay(a: map<Key, Bytes>, b: map<Key, Bytes>, ws: seq<Record>, k: Key)
    requires AllPlain(ws) && AnswerOf(a, k) == AnswerOf(b, k)
    ensures AnswerOf(WrittenAll(a, ws), k) == AnswerOf(WrittenAll(b, ws), k)
  {
    ReplayIsWriting(a, ws, k);
    ReplayIsWriting(b, ws, k);
  }

  // ----- the window in recovery -----

  // Recovery's flush truncates wal.log before it removes wal-flushing.log. This is the
  // disk between the two.
  function InTheWindow(d: Disk): Disk {
    d.(wal := Wal([], 0))
  }

  // A crash in the window recovers the right map exactly when wal.log gave no key of the
  // sealed log a different final effect.
  lemma RecoveryWindowExact(s: State)
    requires Inv(s) && Up(s) && s.ram.value.lock == Truncating(true)
    ensures var d := s.disk;
            var was, both := ToMap(SealedRecs(d)), ToMap(Logged(d));
            (forall k :: CrashView(InTheWindow(d), 0, k) == AnswerOf(s.spec.now, k)) <==>
            (forall k :: k in was ==> k in both && Effect(was[k]) == Effect(both[k]))
  {
    hide Inv, ToMap, View, AnswerOf, Effect;
    TruncatingCrashExact(s, 0);
    var w := InTheWindow(s.disk);
    assert SealedRecs(w) + w.wal.recs[..0] == SealedRecs(s.disk) == Survivors(s.disk, 0);
    assert forall k :: CrashView(w, 0, k) == CrashView(s.disk, 0, k);
  }

  // Just before the truncation with the whole log surviving, and just after the removal,
  // the right map is recovered.
  lemma RecoveryOutsideTheWindow(s: State, k: Key)
    requires Inv(s) && Up(s) && s.ram.value.lock == Truncating(true)
    ensures CrashView(s.disk, |s.disk.wal.recs|, k) == AnswerOf(s.spec.now, k)
    ensures CrashView(Truncate(s).disk, 0, k) == AnswerOf(s.spec.now, k)
  {
    hide Inv, ToMap, View, AnswerOf, Effect, CrashView, CrashOk;
    TruncatingCrashExact(s, |s.disk.wal.recs|);
    assert Survivors(s.disk, |s.disk.wal.recs|) == Logged(s.disk);
    TruncateCrash(s);
  }

  // Every synchronous flush, and so every recovery that finds a sealed log, reaches its
  // commit with both logs as it found them.
  lemma FlushReachesItsCommit(s: State)
    requires Inv(s) && CanLockedFlush(s)
    ensures var s1 := LockedFlush(s);
            CanFlushSync(s1) && CanFlushBuild(FlushSync(s1)) && CanLockedCommit(FlushBuild(FlushSync(s1)))
    ensures var s' := LockedCommit(FlushBuild(FlushSync(LockedFlush(s))));
            && Inv(s') && Up(s') && s'.ram.value.lock == Truncating(s.ram.value.lock == Recovering)
            && s'.disk.wal == s.disk.wal && s'.disk.sealed == s.disk.sealed && s'.spec == s.spec
  {
    hide Less, WellOrdered, CrashOk, ReadersOk, MergeOk, Live, MoveTable, ManifestFor;
    LockedFlushKeepsInv(s);
    FlushSyncKeepsInv(LockedFlush(s));
    FlushBuildKeepsInv(FlushSync(LockedFlush(s)));
    LockedCommitKeepsInv(FlushBuild(FlushSync(LockedFlush(s))));
  }

  lemma RecoveryAlwaysFlushes(s: State)
    requires Inv(s) && Up(s) && s.ram.value.lock == Recovering
    ensures CanLockedFlush(s)
  {
    hide Less, WellOrdered, CrashOk, ReadersOk, MergeOk, Live;
    var d := s.disk;
    ToMapKeys(Logged(d), SealedRecs(d)[0].key);
    assert Logged(d)[0] == SealedRecs(d)[0];
  }
}
