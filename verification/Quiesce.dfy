// With no new writes, background compaction comes to rest under either strategy.
module Quiesce {
  import opened Keys
  import opened Records
  import opened Layers
  import opened Leveled
  import opened LeveledCommit
  import opened Store
  import opened StoreInv
  import opened StoreMerge

  // ----- size-tiered: every merge lowers the number of tables -----

  lemma MergeRunShrinks(tables: seq<Table>, i: nat, j: nat, out: Table)
    requires DistinctIds(tables) && i + 2 <= j <= |tables|
    ensures |Install(tables, tables[i..j], out)| == |tables| - (j - i) + 1 < |tables|
  {
    hide Install;
    assert RunAt(tables, tables[i..j], false, i);
    InstallReplacesRun(tables, tables[i..j], false, i, out);
  }

  // ----- the leveled measure -----

  // Record copies, each weighted by the levels it may still sink through, plus one for
  // every table in level 0.
  function Weight(t: Table, depth: nat): nat {
    (if t.level == 0 then 1 else 0) + |t.recs| * (if t.level <= depth then depth - t.level else 0)
  }

  function TotalWeight(s: seq<Table>, depth: nat): nat {
    if s == [] then 0 else Weight(s[0], depth) + TotalWeight(s[1..], depth)
  }

  function Copies(s: seq<Table>): nat {
    if s == [] then 0 else |s[0].recs| + Copies(s[1..])
  }

  lemma {:induction false} TotalsConcat(a: seq<Table>, b: seq<Table>, depth: nat)
    ensures TotalWeight(a + b, depth) == TotalWeight(a, depth) + TotalWeight(b, depth)
    ensures Copies(a + b) == Copies(a) + Copies(b)
  {
    hide Weight;
    if a == [] {
      assert a + b == b;
    } else {
      assert (a + b)[1..] == a[1..] + b;
      TotalsConcat(a[1..], b, depth);
    }
  }

  lemma {:induction false} TotalsInsert(s: seq<Table>, t: Table, depth: nat)
    ensures TotalWeight(Insert(s, t), depth) == TotalWeight(s, depth) + Weight(t, depth)
    ensures Copies(Insert(s, t)) == Copies(s) + |t.recs|
  {
    hide Weight, SortsBefore;
    if s == [] {
      assert [t][1..] == [];
    } else if SortsBefore(t, s[0]) {
      assert ([t] + s)[1..] == s;
    } else {
      TotalsInsert(s[1..], t, depth);
      assert ([s[0]] + Insert(s[1..], t))[1..] == Insert(s[1..], t);
    }
  }

  lemma {:induction false} TotalsReorder(s: seq<Table>, depth: nat)
    ensures TotalWeight(Reorder(s), depth) == TotalWeight(s, depth) && Copies(Reorder(s)) == Copies(s)
  {
    hide Weight, Insert;
    if s != [] {
      var init, last := s[..|s| - 1], s[|s| - 1];
      TotalsReorder(init, depth);
      TotalsInsert(Reorder(init), last, depth);
      TotalsConcat(init, [last], depth);
      assert [last][1..] == [];
      assert s == init + [last];
    }
  }

  function Only(s: seq<Table>, wanted: seq<Table>): seq<Table> {
    if s == [] then [] else (if s[0] in wanted then [s[0]] else []) + Only(s[1..], wanted)
  }

  lemma {:induction false} TotalsPartition(s: seq<Table>, g: seq<Table>, depth: nat)
    ensures TotalWeight(s, depth) == TotalWeight(Without(s, g), depth) + TotalWeight(Only(s, g), depth)
    ensures Copies(s) == Copies(Without(s, g)) + Copies(Only(s, g))
  {
    hide Weight, TotalWeight, Copies;
    if s == [] {
      TotalsEmpty(depth);
    } else {
      TotalsPartition(s[1..], g, depth);
      TotalsCons(s[0], s[1..], depth);
      assert s == [s[0]] + s[1..];
      if s[0] in g {
        assert Without(s, g) == Without(s[1..], g);
        TotalsCons(s[0], Only(s[1..], g), depth);
      } else {
        assert Only(s, g) == Only(s[1..], g);
        TotalsCons(s[0], Without(s[1..], g), depth);
      }
    }
  }

  lemma TotalsEmpty(depth: nat)
    ensures TotalWeight([], depth) == 0 && Copies([]) == 0
  {
  }

  lemma TotalsCons(t: Table, s: seq<Table>, depth: nat)
    ensures TotalWeight([t] + s, depth) == Weight(t, depth) + TotalWeight(s, depth)
    ensures Copies([t] + s) == |t.recs| + Copies(s)
  {
    assert ([t] + s)[1..] == s;
  }

  lemma {:induction false} OnlyMembers(s: seq<Table>, g: seq<Table>, t: Table)
    ensures t in Only(s, g) <==> t in s && t in g
  {
    if s != [] {
      OnlyMembers(s[1..], g, t);
    }
  }

  ghost predicate Distinct(s: seq<Table>) {
    forall i, j :: 0 <= i < j < |s| ==> s[i] != s[j]
  }

  lemma {:induction false} OnlyDistinct(s: seq<Table>, g: seq<Table>)
    requires Distinct(s)
    ensures Distinct(Only(s, g))
  {
    if s != [] {
      OnlyDistinct(s[1..], g);
      OnlyMembers(s[1..], g, s[0]);
    }
  }

  lemma ChainIsDistinct(s: seq<Table>)
    requires Chain(s)
    ensures Distinct(s)
  {
    hide Less;
    forall i, j | 0 <= i < j < |s| ensures s[i] != s[j] {
      assert Precedes(s[i], s[j]);
      NeverPrecedesItself(s[i]);
    }
  }

  lemma NeverPrecedesItself(t: Table)
    ensures !Precedes(t, t)
  {
    if Precedes(t, t) {
      SortsBeforeDecides(t, t);
    }
  }

  lemma TotalsRemove(b: seq<Table>, i: nat, depth: nat)
    requires i < |b|
    ensures TotalWeight(b, depth) == Weight(b[i], depth) + TotalWeight(b[..i] + b[i + 1..], depth)
    ensures Copies(b) == |b[i].recs| + Copies(b[..i] + b[i + 1..])
  {
    hide Weight, TotalWeight, Copies;
    assert b == b[..i] + ([b[i]] + b[i + 1..]);
    TotalsConcat(b[..i], [b[i]] + b[i + 1..], depth);
    TotalsCons(b[i], b[i + 1..], depth);
    TotalsConcat(b[..i], b[i + 1..], depth);
  }

  lemma HasMember(b: seq<Table>)
    ensures b != [] ==> exists t :: t in b
  {
    if b != [] {
      assert b[0] in b;
    }
  }

  // Duplicate-free lists with the same members have the same totals.
  lemma {:induction false} TotalsSameMembers(a: seq<Table>, b: seq<Table>, depth: nat)
    requires Distinct(a) && Distinct(b) && forall t :: t in a <==> t in b
    ensures TotalWeight(a, depth) == TotalWeight(b, depth) && Copies(a) == Copies(b)
  {
    hide Weight, TotalWeight, Copies, Distinct;
    if a == [] {
      HasMember(b);
    } else {
      assert a[0] in a && a[0] in b;
      var i :| 0 <= i < |b| && b[i] == a[0];
      MembersAfterRemoval(a, b, i);
      TotalsSameMembers(a[1..], b[..i] + b[i + 1..], depth);
      TotalsRemove(b, i, depth);
      TotalsCons(a[0], a[1..], depth);
      assert a == [a[0]] + a[1..];
    }
  }

  lemma MembersAfterRemoval(a: seq<Table>, b: seq<Table>, i: nat)
    requires Distinct(a) && Distinct(b) && (forall t :: t in a <==> t in b) && a != [] && i < |b| && b[i] == a[0]
    ensures var rest := b[..i] + b[i + 1..];
            Distinct(a[1..]) && Distinct(rest) && forall t :: t in a[1..] <==> t in rest
  {
    var rest := b[..i] + b[i + 1..];
    forall t ensures t in a[1..] <==> t in rest {
      if t in a[1..] {
        assert t in b;
        var j :| 0 <= j < |b| && b[j] == t;
        assert t != a[0];
        assert t in rest by {
          if j < i {
            assert rest[j] == t;
          } else {
            assert rest[j - 1] == t;
          }
        }
      }
      if t in rest {
        assert t in b && t in a;
        var j :| 0 <= j < |rest| && rest[j] == t;
        assert t != a[0];
      }
    }
  }

  // ----- what a level's tables weigh -----

  lemma {:induction false} WeightAtLevel(s: seq<Table>, level: nat, depth: nat)
    requires (forall t :: t in s ==> t.level == level) && level <= depth
    ensures TotalWeight(s, depth) == Copies(s) * (depth - level) + if level == 0 then |s| else 0
  {
    if s != [] {
      WeightAtLevel(s[1..], level, depth);
      assert s[0] in s;
      Distribute(|s[0].recs|, Copies(s[1..]), depth - level);
    } else {
      assert 0 * (depth - level) == 0;
    }
  }

  lemma Distribute(x: int, y: int, w: int)
    ensures (x + y) * w == x * w + y * w
  {
  }

  // ----- a merge never adds record copies -----

  lemma {:induction false} OverlayCount(s: seq<Table>)
    ensures |Overlay(s)| <= Copies(s)
  {
    if s != [] {
      OverlayCount(s[1..]);
      PlusCount(Overlay(s[1..]), s[0].recs);
    }
  }

  lemma PlusCount(a: map<Key, Body>, b: map<Key, Body>)
    ensures |a + b| <= |a| + |b|
  {
    assert (a + b).Keys == a.Keys + b.Keys;
    assert |a.Keys + b.Keys| <= |a.Keys| + |b.Keys|;
    assert |a + b| == |(a + b).Keys| && |a| == |a.Keys| && |b| == |b.Keys|;
  }

  lemma DropCount(m: map<Key, Body>)
    ensures |DropDeleted(m)| <= |m|
  {
    SubsetCount(DropDeleted(m).Keys, m.Keys);
    assert |DropDeleted(m)| == |DropDeleted(m).Keys| && |m| == |m.Keys|;
  }

  lemma SubsetCount(a: set<Key>, b: set<Key>)
    requires a <= b
    ensures |a| <= |b|
  {
    assert b == a + (b - a);
  }

  lemma MergedCount(inputs: seq<Table>, drop: bool)
    ensures |Merged(inputs, drop)| <= Copies(inputs)
  {
    OverlayCount(inputs);
    DropCount(Overlay(inputs));
  }

  function KeysOf(s: seq<Table>): set<Key> {
    if s == [] then {} else s[0].recs.Keys + KeysOf(s[1..])
  }

  lemma {:induction false} KeysOfMembers(s: seq<Table>, k: Key)
    ensures k in KeysOf(s) <==> exists t :: t in s && k in t.recs
  {
    if s != [] {
      KeysOfMembers(s[1..], k);
    }
  }

  // The output files share no key, so together they hold no more than was merged.
  lemma {:induction false} SplitCount(outs: seq<Table>, keys: set<Key>)
    requires forall i, j, k :: 0 <= i < j < |outs| && k in outs[i].recs ==> k !in outs[j].recs
    requires KeysOf(outs) <= keys
    ensures Copies(outs) <= |keys|
  {
    if outs != [] {
      var rest := outs[1..];
      SplitCount(rest, KeysOf(rest));
      forall k | k in outs[0].recs ensures k !in KeysOf(rest) {
        KeysOfMembers(rest, k);
      }
      assert |outs[0].recs.Keys + KeysOf(rest)| == |outs[0].recs.Keys| + |KeysOf(rest)|;
      assert |outs[0].recs| == |outs[0].recs.Keys|;
      SubsetCount(KeysOf(outs), keys);
    }
  }

  lemma OutputCopies(outs: seq<Table>, p: LevelPick)
    requires IsSplit(outs, p.Dest(), Merged(p.Inputs(), p.drop))
    ensures Copies(outs) <= Copies(p.Inputs())
  {
    hide Less, Merged, Precedes;
    var merged := Merged(p.Inputs(), p.drop);
    forall i, j, k | 0 <= i < j < |outs| && k in outs[i].recs ensures k !in outs[j].recs {
      SplitIsChain(outs, p.Dest(), merged, i, j);
      assert outs[i] in outs && outs[j] in outs;
      SameLevelDisjoint(outs[i], outs[j], k);
    }
    forall k | k in KeysOf(outs) ensures k in merged {
      KeysOfMembers(outs, k);
    }
    SplitCount(outs, merged.Keys);
    MergedCount(p.Inputs(), p.drop);
    assert |merged| == |merged.Keys|;
  }

  // ----- one leveled step -----

  lemma InputsWeigh(tables: seq<Table>, p: LevelPick, depth: nat)
    requires WellOrdered(tables) && IsLevelPick(tables, p)
    ensures TotalWeight(Only(tables, p.Inputs()), depth) == TotalWeight(p.from, depth) + TotalWeight(p.into, depth)
    ensures Copies(Only(tables, p.Inputs())) == Copies(p.from) + Copies(p.into)
  {
    hide Less, Weight, TotalWeight, Copies, IsLevelPick, Precedes;
    assert Chain(tables);
    InputsFormChain(tables, p);
    ChainIsDistinct(tables);
    ChainIsDistinct(p.Inputs());
    OnlyDistinct(tables, p.Inputs());
    forall t ensures t in Only(tables, p.Inputs()) <==> t in p.Inputs() {
      OnlyMembers(tables, p.Inputs(), t);
      InputsAreListed(tables, p, t);
    }
    TotalsSameMembers(Only(tables, p.Inputs()), p.Inputs(), depth);
    TotalsConcat(p.from, p.into, depth);
  }

  // The source tables lose more weight than the output files gain.
  lemma SinkingLosesWeight(tables: seq<Table>, p: LevelPick, outs: seq<Table>, depth: nat)
    requires WellOrdered(tables) && IsLevelPick(tables, p) && p.src < depth
    requires IsSplit(outs, p.Dest(), Merged(p.Inputs(), p.drop))
    ensures TotalWeight(outs, depth) < TotalWeight(p.from, depth) + TotalWeight(p.into, depth)
  {
    hide Less, Weight, TotalWeight, Merged, Precedes, MinKey, MaxKey, Copies;
    var w := depth - p.Dest();
    forall t | t in p.from ensures t.level == p.src && t in tables {
      InputsAreListed(tables, p, t);
    }
    forall t | t in p.into ensures t.level == p.Dest() {
      InputsAreListed(tables, p, t);
    }
    WeightAtLevel(p.from, p.src, depth);
    WeightAtLevel(p.into, p.Dest(), depth);
    WeightAtLevel(outs, p.Dest(), depth);
    OutputCopies(outs, p);
    TotalsConcat(p.from, p.into, depth);
    Distribute(Copies(p.from), Copies(p.into), w);
    Monotone(Copies(outs), Copies(p.from) + Copies(p.into), w);
    assert Copies(p.from) * (w + 1) == Copies(p.from) * w + Copies(p.from);
    if p.src > 0 {
      assert p.from[0] in p.from;
      assert Solid(p.from[0]);
      NonEmptyCopies(p.from);
    }
  }

  lemma NonEmptyCopies(s: seq<Table>)
    requires s != [] && s[0].recs != map[]
    ensures Copies(s) > 0
  {
    assert |s[0].recs| > 0 by {
      var k :| k in s[0].recs;
      MapShrinks(s[0].recs, k);
    }
  }

  lemma Monotone(x: int, y: int, w: nat)
    requires x <= y
    ensures x * w <= y * w
  {
  }

  // A leveled compaction with no flush meanwhile lowers the measure and adds no copies.
  lemma LevelStepLowersWeight(tables: seq<Table>, p: LevelPick, outs: seq<Table>, depth: nat)
    requires WellOrdered(tables) && IsLevelPick(tables, p) && p.src < depth
    requires IsSplit(outs, p.Dest(), Merged(p.Inputs(), p.drop))
    ensures TotalWeight(Commit(tables, p.Inputs(), outs), depth) < TotalWeight(tables, depth)
    ensures Copies(Commit(tables, p.Inputs(), outs)) <= Copies(tables)
  {
    hide Less, Weight, TotalWeight, Copies, IsLevelPick, Precedes, IsSplit, Merged, Reorder, WellOrdered;
    var kept := Without(tables, p.Inputs());
    TotalsReorder(kept + outs, depth);
    TotalsConcat(kept, outs, depth);
    TotalsPartition(tables, p.Inputs(), depth);
    InputsWeigh(tables, p, depth);
    SinkingLosesWeight(tables, p, outs, depth);
    OutputCopies(outs, p);
    TotalsConcat(p.from, p.into, depth);
  }

  // ----- whole sequences of leveled steps -----

  // Every record of the table is one of the pool's.
  ghost predicate Drawn(t: Table, pool: set<Record>) {
    forall k :: k in t.recs ==> Record(k, t.recs[k]) in pool
  }

  ghost predicate AllDrawn(s: seq<Table>, pool: set<Record>) {
    forall t :: t in s ==> Drawn(t, pool)
  }

  // Files over a pool of records take at most c bytes a record.
  ghost predicate SizesBounded(size: Table -> nat, pool: set<Record>, c: nat) {
    forall t :: Drawn(t, pool) && t.recs != map[] ==> size(t) <= c * |t.recs|
  }

  function Bytes(s: seq<Table>, size: Table -> nat): nat {
    if s == [] then 0 else size(s[0]) + Bytes(s[1..], size)
  }

  // Level 0 once it has enough tables, else the shallowest level over its budget.
  ghost predicate SourceDue(tables: seq<Table>, minMerge: nat, budget: nat -> nat, size: Table -> nat, src: nat) {
    if |AtLevel(tables, 0)| >= minMerge then src == 0
    else
      && src >= 1 && Bytes(AtLevel(tables, src), size) > budget(src)
      && forall l :: 1 <= l < src ==> Bytes(AtLevel(tables, l), size) <= budget(l)
  }

  lemma {:induction false} BytesBounded(s: seq<Table>, size: Table -> nat, pool: set<Record>, c: nat)
    requires SizesBounded(size, pool, c) && AllDrawn(s, pool) && forall t :: t in s ==> t.recs != map[]
    ensures Bytes(s, size) <= c * Copies(s)
  {
    if s != [] {
      assert s[0] in s;
      BytesBounded(s[1..], size, pool, c);
      Distribute(|s[0].recs|, Copies(s[1..]), c);
    } else {
      assert c * 0 == 0;
    }
  }

  lemma {:induction false} LevelCopies(s: seq<Table>, level: nat)
    ensures Copies(AtLevel(s, level)) <= Copies(s)
  {
    if s != [] {
      LevelCopies(s[1..], level);
      assert ([s[0]] + AtLevel(s[1..], level))[1..] == AtLevel(s[1..], level);
      assert [] + AtLevel(s[1..], level) == AtLevel(s[1..], level);
    }
  }

  // From this depth on every level's budget covers the bound.
  ghost predicate CoversFrom(budget: nat -> nat, depth: nat, bound: nat) {
    depth > 0 && forall l: nat :: l >= depth ==> budget(l) >= bound
  }

  // A level whose budget covers all the records is never the source.
  lemma SourceIsShallow(tables: seq<Table>, minMerge: nat, budget: nat -> nat, size: Table -> nat, src: nat,
                        pool: set<Record>, c: nat, copies: nat, depth: nat)
    requires WellOrdered(tables) && AllDrawn(tables, pool) && SizesBounded(size, pool, c) && Copies(tables) <= copies
    requires CoversFrom(budget, depth, c * copies)
    requires SourceDue(tables, minMerge, budget, size, src)
    ensures src < depth
  {
    hide Less, Drawn, SizesBounded, Copies, AtLevel, Bytes, WellOrdered, AllDrawn;
    if src >= depth {
      LevelIsSmall(tables, size, src, pool, c);
      Monotone(Copies(tables), copies, c);
    }
  }

  lemma LevelIsSmall(tables: seq<Table>, size: Table -> nat, level: nat, pool: set<Record>, c: nat)
    requires WellOrdered(tables) && AllDrawn(tables, pool) && SizesBounded(size, pool, c) && level > 0
    ensures Bytes(AtLevel(tables, level), size) <= c * Copies(tables)
  {
    hide Less, Precedes, Drawn, SizesBounded, Copies, AtLevel, Bytes;
    var at := AtLevel(tables, level);
    forall t | t in at ensures t.recs != map[] && Drawn(t, pool) {
      AtLevelMembers(tables, level, t);
      assert Solid(t);
    }
    BytesBounded(at, size, pool, c);
    LevelCopies(tables, level);
    Monotone(Copies(at), Copies(tables), c);
  }

  ghost predicate LevelStep(a: seq<Table>, b: seq<Table>, minMerge: nat, budget: nat -> nat, size: Table -> nat) {
    exists p, outs ::
      && IsLevelPick(a, p) && SourceDue(a, minMerge, budget, size, p.src)
      && IsSplit(outs, p.Dest(), Merged(p.Inputs(), p.drop))
      && b == Commit(a, p.Inputs(), outs)
  }

  lemma StepKeepsDrawn(tables: seq<Table>, p: LevelPick, outs: seq<Table>, pool: set<Record>)
    requires AllDrawn(tables, pool) && IsLevelPick(tables, p)
    requires IsSplit(outs, p.Dest(), Merged(p.Inputs(), p.drop))
    ensures AllDrawn(Commit(tables, p.Inputs(), outs), pool)
  {
    hide Less, Merged, Overlay, Commit, IsLevelPick, MinKey, MaxKey;
    forall t | t in Commit(tables, p.Inputs(), outs) ensures Drawn(t, pool) {
      CommitMembers(tables, p.Inputs(), outs, t);
      if t in outs {
        forall k | k in t.recs ensures Record(k, t.recs[k]) in pool {
          MergedBody(p.Inputs(), p.drop, k);
          LookupOverlay(p.Inputs(), k);
          var i := LookupSome(p.Inputs(), k);
          InputsAreListed(tables, p, p.Inputs()[i]);
          assert p.Inputs()[i] in tables;
        }
      }
    }
  }

  lemma LevelStepFacts(a: seq<Table>, b: seq<Table>, minMerge: nat, budget: nat -> nat, size: Table -> nat,
                       pool: set<Record>, c: nat, copies: nat, depth: nat)
    requires WellOrdered(a) && AllDrawn(a, pool) && SizesBounded(size, pool, c) && Copies(a) <= copies
    requires CoversFrom(budget, depth, c * copies)
    requires LevelStep(a, b, minMerge, budget, size)
    ensures WellOrdered(b) && AllDrawn(b, pool) && Copies(b) <= copies
    ensures TotalWeight(b, depth) < TotalWeight(a, depth)
  {
    hide Less, WellOrdered, AllDrawn, SizesBounded, Copies, TotalWeight, IsLevelPick, SourceDue, IsSplit, Merged,
         Commit;
    var p, outs :| IsLevelPick(a, p) && SourceDue(a, minMerge, budget, size, p.src)
                   && IsSplit(outs, p.Dest(), Merged(p.Inputs(), p.drop)) && b == Commit(a, p.Inputs(), outs);
    SourceIsShallow(a, minMerge, budget, size, p.src, pool, c, copies, depth);
    LevelStepLowersWeight(a, p, outs, depth);
    StepKeepsDrawn(a, p, outs, pool);
    assert [] + a == a;
    assert Ready([], a, p);
    CommitKeepsOrder([], a, p, outs);
  }

  // With no new writes, leveled compaction stops: however the steps are chosen, no more
  // of them follow than the starting measure.
  lemma {:induction false} LeveledQuiesces(ts: seq<seq<Table>>, minMerge: nat, budget: nat -> nat, size: Table -> nat,
                                           pool: set<Record>, c: nat, copies: nat, depth: nat)
    requires ts != [] && WellOrdered(ts[0]) && AllDrawn(ts[0], pool) && SizesBounded(size, pool, c)
    requires Copies(ts[0]) <= copies
    requires CoversFrom(budget, depth, c * copies)
    requires forall i :: 0 <= i < |ts| - 1 ==> LevelStep(ts[i], ts[i + 1], minMerge, budget, size)
    ensures |ts| - 1 <= TotalWeight(ts[0], depth)
    decreases |ts|
  {
    hide WellOrdered, AllDrawn, SizesBounded, Copies, TotalWeight, LevelStep;
    if |ts| > 1 {
      LevelStepFacts(ts[0], ts[1], minMerge, budget, size, pool, c, copies, depth);
      assert ts[1..][0] == ts[1];
      LeveledQuiesces(ts[1..], minMerge, budget, size, pool, c, copies, depth);
    }
  }

  ghost predicate Reaches(budget: nat -> nat, x: nat) {
    exists l: nat :: budget(l) >= x
  }

  // Budgets that grow past every bound have such a depth.
  lemma GrowingBudgetsSuffice(budget: nat -> nat, bound: nat)
    requires forall l: nat :: budget(l) <= budget(l + 1)
    requires forall x: nat :: Reaches(budget, x)
    ensures exists depth: nat :: CoversFrom(budget, depth, bound)
  {
    assert Reaches(budget, bound);
    var d: nat :| budget(d) >= bound;
    forall l: nat | l >= d + 1 ensures budget(l) >= bound {
      BudgetClimbs(budget, d, l);
    }
    assert CoversFrom(budget, d + 1, bound);
  }

  lemma {:induction false} BudgetClimbs(budget: nat -> nat, a: nat, b: nat)
    requires a <= b && forall l: nat :: budget(l) <= budget(l + 1)
    ensures budget(a) <= budget(b)
    decreases b - a
  {
    if a < b {
      BudgetClimbs(budget, a, b - 1);
      assert budget(b - 1) <= budget(b - 1 + 1);
    }
  }

  function PoolOf(tables: seq<Table>): set<Record> {
    set t, k | t in tables && k in t.recs :: Record(k, t.recs[k])
  }

  lemma DrawnFromPool(tables: seq<Table>)
    ensures AllDrawn(tables, PoolOf(tables))
  {
  }

  // Successive lists of a leveled store to which nothing is written.
  ghost predicate IsLevelRun(ts: seq<seq<Table>>, tables: seq<Table>, minMerge: nat, budget: nat -> nat,
                             size: Table -> nat)
  {
    && ts != [] && ts[0] == tables
    && forall i :: 0 <= i < |ts| - 1 ==> LevelStep(ts[i], ts[i + 1], minMerge, budget, size)
  }

  ghost predicate StopsWithin(tables: seq<Table>, minMerge: nat, budget: nat -> nat, size: Table -> nat, steps: nat) {
    forall ts :: IsLevelRun(ts, tables, minMerge, budget, size) ==> |ts| - 1 <= steps
  }

  // Budgets that grow past every bound and files of bounded size per record: from any
  // well-ordered list there is a number of leveled steps that no choice of steps exceeds.
  lemma LeveledCompactionStops(tables: seq<Table>, minMerge: nat, budget: nat -> nat, size: Table -> nat, c: nat)
    requires WellOrdered(tables) && SizesBounded(size, PoolOf(tables), c)
    requires forall l: nat :: budget(l) <= budget(l + 1)
    requires forall x: nat :: Reaches(budget, x)
    ensures exists steps: nat :: StopsWithin(tables, minMerge, budget, size, steps)
  {
    hide WellOrdered, SizesBounded, Copies, TotalWeight, LevelStep, CoversFrom, Reaches;
    var copies := Copies(tables);
    GrowingBudgetsSuffice(budget, c * copies);
    var depth: nat :| CoversFrom(budget, depth, c * copies);
    DrawnFromPool(tables);
    hide AllDrawn;
    forall ts | IsLevelRun(ts, tables, minMerge, budget, size) ensures |ts| - 1 <= TotalWeight(tables, depth) {
      LeveledQuiesces(ts, minMerge, budget, size, PoolOf(tables), c, copies, depth);
    }
    assert StopsWithin(tables, minMerge, budget, size, TotalWeight(tables, depth));
  }
}
