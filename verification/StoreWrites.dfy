// Writes, syncs and seals keep the invariant.
module StoreWrites {
  import opened Keys
  import opened Records
  import opened Layers
  import opened Leveled
  import opened Store
  import opened StoreInv

  // While no recovery flush is pending, the memtables hold exactly what the two logs
  // replay to.
  lemma UpperIsLogs(r: Ram, d: Disk)
    requires MemOk(r, d.wal.recs, d.sealed, LogsOf(d)) && (r.lock == Free || r.lock == Recovering)
    ensures Upper(r) == ToMap(SealedRecs(d) + d.wal.recs)
  {
    ToMapAppend(SealedRecs(d), d.wal.recs);
  }

  lemma CrashViewFull(r: Ram, d: Disk, now: map<Key, Bytes>, k: Key)
    requires MemOk(r, d.wal.recs, d.sealed, LogsOf(d)) && (r.lock == Free || r.lock == Recovering)
    requires r.tables == ManTables(d) && Live(Upper(r), r.tables, LogsOf(d), now)
    ensures CrashView(d, |d.wal.recs|, k) == AnswerOf(now, k)
  {
    UpperIsLogs(r, d);
    assert d.wal.recs[..|d.wal.recs|] == d.wal.recs;
    assert View(Upper(r), r.tables, LogsOf(d), k) == AnswerOf(now, k);
  }

  lemma WrittenAnswers(m: map<Key, Bytes>, w: Record, k: Key)
    requires Plain(w.body)
    ensures AnswerOf(Written(m, w), k) == if k == w.key then Effect(w.body) else AnswerOf(m, k)
  {
  }

  lemma ViewWritten(upper: map<Key, Body>, tables: seq<Table>, logs: Logs, w: Record, k: Key)
    requires Plain(w.body)
    ensures View(upper[w.key := w.body], tables, logs, k) ==
            if k == w.key then Effect(w.body) else View(upper, tables, logs, k)
  {
  }

  lemma AdmissibleGrows(sp: Spec, w: Record, k: Key, a: Answer)
    requires Admissible(sp, k, a)
    ensures Admissible(sp.(now := Written(sp.now, w), since := sp.since + [w]), k, a)
  {
    var since := sp.since + [w];
    if a != AnswerOf(sp.durable, k) {
      var i :| 0 <= i < |sp.since| && sp.since[i].key == k && a == Effect(sp.since[i].body);
      assert since[i] == sp.since[i];
    }
  }

  lemma WriteCrash(s: State, w: Record)
    requires Inv(s) && CanWrite(s, w)
    ensures CrashOk(Write(s, w).disk, Write(s, w).spec)
  {
    hide Admissible;
    var d, sp := s.disk, s.spec;
    var d', sp' := Write(s, w).disk, Write(s, w).spec;
    forall n: nat, k: Key | d'.wal.synced <= n <= |d'.wal.recs| ensures Admissible(sp', k, CrashView(d', n, k)) {
      if n < |d'.wal.recs| {
        assert d'.wal.recs[..n] == d.wal.recs[..n];
        assert CrashView(d', n, k) == CrashView(d, n, k);
        AdmissibleGrows(sp, w, k, CrashView(d, n, k));
      } else {
        var all := SealedRecs(d) + d.wal.recs;
        assert SealedRecs(d') + d'.wal.recs[..n] == all + [w];
        assert (all + [w])[..|all|] == all;
        assert d.wal.recs[..|d.wal.recs|] == d.wal.recs;
        ViewWritten(ToMap(all), ManTables(d), LogsOf(d), w, k);
        if k == w.key {
          LastIsAdmissible(sp', k);
        } else {
          assert CrashView(d', n, k) == CrashView(d, |d.wal.recs|, k);
          AdmissibleGrows(sp, w, k, CrashView(d, |d.wal.recs|, k));
        }
      }
    }
  }

  lemma LastIsAdmissible(sp: Spec, k: Key)
    requires sp.since != [] && sp.since[|sp.since| - 1].key == k
    ensures Admissible(sp, k, Effect(sp.since[|sp.since| - 1].body))
  {
  }

  lemma WriteKeepsInv(s: State, w: Record)
    requires Inv(s) && CanWrite(s, w)
    ensures Inv(Write(s, w))
  {
    hide Less, CrashOk, WellOrdered;
    var s' := Write(s, w);
    var d, r, r' := s.disk, s.ram.value, s'.ram.value;
    WriteCrash(s, w);
    assert s'.disk.wal.recs[..|d.wal.recs|] == d.wal.recs;
    assert r'.mem == ToMap(s'.disk.wal.recs);
    assert Upper(r') == Upper(r)[w.key := w.body];
    forall k ensures View(Upper(r'), r.tables, LogsOf(d), k) == AnswerOf(s'.spec.now, k) {
      assert View(Upper(r), r.tables, LogsOf(d), k) == AnswerOf(s.spec.now, k);
      ViewWritten(Upper(r), r.tables, LogsOf(d), w, k);
      WrittenAnswers(s.spec.now, w, k);
    }
    assert MemOk(r', s'.disk.wal.recs, d.sealed, LogsOf(d));
    assert IdsOk(s.cfg, r');
    assert ReadersOk(r', s'.disk);
  }

  lemma SyncKeepsInv(s: State)
    requires Inv(s) && Idle(s)
    ensures Inv(Sync(s))
  {
    hide Less, WellOrdered;
    var s' := Sync(s);
    var d, r := s.disk, s.ram.value;
    forall n: nat, k: Key | s'.disk.wal.synced <= n <= |s'.disk.wal.recs|
      ensures Admissible(s'.spec, k, CrashView(s'.disk, n, k))
    {
      CrashViewFull(r, d, s.spec.now, k);
      assert CrashView(s'.disk, n, k) == CrashView(d, |d.wal.recs|, k);
    }
    assert ReadersOk(r, s'.disk);
  }

  lemma SealKeepsInv(s: State)
    requires Inv(s) && CanSeal(s)
    ensures Inv(Seal(s))
  {
    hide Less, WellOrdered, Admissible;
    var s' := Seal(s);
    var d, r, d', r' := s.disk, s.ram.value, s'.disk, s'.ram.value;
    forall n: nat, k: Key | d'.wal.synced <= n <= |d'.wal.recs|
      ensures Admissible(s'.spec, k, CrashView(d', n, k))
    {
      assert d.wal.recs[..|d.wal.recs|] == d.wal.recs;
      assert SealedRecs(d') + d'.wal.recs[..n] == SealedRecs(d) + d.wal.recs[..|d.wal.recs|];
      assert CrashView(d', n, k) == CrashView(d, |d.wal.recs|, k);
    }
    assert Upper(r') == Upper(r);
    assert IdsOk(s.cfg, r');
    assert ReadersOk(r', d');
  }
}
