// One leveled compaction, from the choice of its inputs to its commit.
module LeveledCommit {
  import opened Keys
  import opened Records
  import opened Layers
  import opened Leveled

  function AtLevel(s: seq<Table>, level: nat): seq<Table> {
    if s == [] then []
    else (if s[0].level == level then [s[0]] else []) + AtLevel(s[1..], level)
  }

  ghost predicate Overlaps(t: Table, lo: Key, hi: Key) {
    !(Less(MaxKey(t), lo) || Less(hi, MinKey(t)))
  }

  ghost function Overlapping(s: seq<Table>, level: nat, lo: Key, hi: Key): seq<Table> {
    if s == [] then []
    else (if s[0].level == level && Overlaps(s[0], lo, hi) then [s[0]] else []) +
         Overlapping(s[1..], level, lo, hi)
  }

  function Without(s: seq<Table>, gone: seq<Table>): seq<Table> {
    if s == [] then []
    else (if s[0] in gone then [] else [s[0]]) + Without(s[1..], gone)
  }

  // The combined key range of some tables.
  ghost predicate IsSpan(s: seq<Table>, lo: Key, hi: Key) {
    && (forall t :: t in s ==> AtMost(lo, MinKey(t)) && AtMost(MaxKey(t), hi))
    && (exists t :: t in s && MinKey(t) == lo)
    && (exists t :: t in s && MaxKey(t) == hi)
  }

  // Source tables first (newer), then the overlapping tables of the next level.
  datatype LevelPick = LevelPick(src: nat, from: seq<Table>, into: seq<Table>, lo: Key, hi: Key, drop: bool)
  {
    function Inputs(): seq<Table> {
      from + into
    }

    function Dest(): nat {
      src + 1
    }
  }

  ghost predicate IsLowest(t: Table, tables: seq<Table>) {
    && t in tables
    && forall u :: u in tables && u.level == t.level ==> AtMost(MinKey(t), MinKey(u))
  }

  ghost predicate IsLevelPick(tables: seq<Table>, p: LevelPick) {
    && p.from != []
    && (p.src == 0 ==> p.from == AtLevel(tables, 0))
    && (p.src > 0 ==> |p.from| == 1 && p.from[0].level == p.src && IsLowest(p.from[0], tables))
    && IsSpan(p.from, p.lo, p.hi)
    && p.into == Overlapping(tables, p.Dest(), p.lo, p.hi)
    && (p.drop <==> forall t :: t in tables ==> t.level <= p.Dest())
  }

  // The output files: the merged records cut into consecutive non-empty pieces.
  ghost predicate IsSplit(outs: seq<Table>, level: nat, merged: map<Key, Body>) {
    && (forall o :: o in outs ==> o.level == level && o.recs != map[])
    && (forall i, j :: 0 <= i < j < |outs| ==> Less(MaxKey(outs[i]), MinKey(outs[j])))
    && (forall o, k :: o in outs && k in o.recs ==> k in merged && o.recs[k] == merged[k])
    && (forall k :: k in merged ==> exists o :: o in outs && k in o.recs)
  }

  // The outputs hold each input key's newest record; a tombstone goes exactly when no table
  // lies below the level it would move to.
  lemma OutputsHold(tables: seq<Table>, p: LevelPick, outs: seq<Table>, k: Key)
    requires IsLevelPick(tables, p) && IsSplit(outs, p.Dest(), Merged(p.Inputs(), p.drop))
    ensures (exists o :: o in outs && k in o.recs) <==>
            && Lookup(p.from + p.into, k).Some?
            && (Lookup(p.from + p.into, k) != Some(Deleted) || exists t :: t in tables && t.level > p.src + 1)
    ensures forall o :: o in outs && k in o.recs ==> Lookup(p.from + p.into, k) == Some(o.recs[k])
  {
    hide Less, MinKey, MaxKey, Overlay, Overlapping, AtLevel, IsLowest, IsSpan;
    LookupOverlay(p.Inputs(), k);
    SplitHolds(outs, p.Dest(), Merged(p.Inputs(), p.drop), k);
    hide IsSplit;
    assert p.drop <==> !exists t :: t in tables && t.level > p.src + 1;
  }

  lemma SplitHolds(outs: seq<Table>, level: nat, merged: map<Key, Body>, k: Key)
    requires IsSplit(outs, level, merged)
    ensures (exists o :: o in outs && k in o.recs) <==> k in merged
    ensures forall o :: o in outs && k in o.recs ==> o.recs[k] == merged[k]
  {
    hide Less, MinKey, MaxKey;
  }

  ghost function Commit(tables: seq<Table>, inputs: seq<Table>, outs: seq<Table>): seq<Table> {
    Reorder(Without(tables, inputs) + outs)
  }

  // ----- members of the filtered lists -----

  lemma {:induction false} AtLevelMembers(s: seq<Table>, level: nat, t: Table)
    ensures t in AtLevel(s, level) <==> t in s && t.level == level
  {
    if s != [] {
      AtLevelMembers(s[1..], level, t);
    }
  }

  lemma {:induction false} OverlappingMembers(s: seq<Table>, level: nat, lo: Key, hi: Key, t: Table)
    ensures t in Overlapping(s, level, lo, hi) <==> t in s && t.level == level && Overlaps(t, lo, hi)
  {
    hide Less;
    if s != [] {
      OverlappingMembers(s[1..], level, lo, hi, t);
    }
  }

  lemma {:induction false} WithoutMembers(s: seq<Table>, gone: seq<Table>, t: Table)
    ensures t in Without(s, gone) <==> t in s && t !in gone
  {
    if s != [] {
      WithoutMembers(s[1..], gone, t);
    }
  }

  // The filtered lists inherit the order of the list they come from.
  lemma {:induction false} AtLevelChain(s: seq<Table>, level: nat)
    requires Chain(s)
    ensures Chain(AtLevel(s, level))
  {
    hide Precedes;
    if s != [] {
      AtLevelChain(s[1..], level);
      forall t | t in AtLevel(s[1..], level) ensures Precedes(s[0], t) {
        AtLevelMembers(s[1..], level, t);
      }
    }
  }

  lemma {:induction false} OverlappingChain(s: seq<Table>, level: nat, lo: Key, hi: Key)
    requires Chain(s)
    ensures Chain(Overlapping(s, level, lo, hi))
  {
    hide Precedes;
    if s != [] {
      OverlappingChain(s[1..], level, lo, hi);
      forall t | t in Overlapping(s[1..], level, lo, hi) ensures Precedes(s[0], t) {
        OverlappingMembers(s[1..], level, lo, hi, t);
      }
    }
  }

  lemma {:induction false} WithoutChain(s: seq<Table>, gone: seq<Table>)
    requires Chain(s)
    ensures Chain(Without(s, gone))
  {
    hide Precedes;
    if s != [] {
      WithoutChain(s[1..], gone);
      forall t | t in Without(s[1..], gone) ensures Precedes(s[0], t) {
        WithoutMembers(s[1..], gone, t);
      }
    }
  }

  // ----- who answers for a key -----

  // Among the tables that hold k, t comes first.
  ghost predicate Leads(t: Table, tables: seq<Table>, k: Key) {
    && t in tables && k in t.recs
    && forall u :: u in tables && k in u.recs ==> u == t || Precedes(t, u)
  }

  lemma LeaderAnswers(t: Table, tables: seq<Table>, k: Key)
    requires Chain(tables) && Leads(t, tables, k)
    ensures Lookup(tables, k) == Some(t.recs[k])
  {
    hide Less;
    var i :| 0 <= i < |tables| && tables[i] == t;
    forall j | 0 <= j < i ensures k !in tables[j].recs {
      assert Precedes(tables[j], tables[i]);
      if tables[j] != t && Precedes(t, tables[j]) {
        SortsBeforeDecides(t, tables[j]);
      } else if tables[j] == t {
        SortsBeforeDecides(t, t);
      }
    }
    LookupAt(tables, i, k);
  }

  lemma LeaderExists(tables: seq<Table>, k: Key) returns (t: Table)
    requires Chain(tables) && Lookup(tables, k).Some?
    ensures Leads(t, tables, k) && Lookup(tables, k) == Some(t.recs[k])
  {
    var i := LookupSome(tables, k);
    t := tables[i];
    forall u | u in tables && k in u.recs ensures u == t || Precedes(t, u) {
      var j :| 0 <= j < |tables| && tables[j] == u;
      if j > i {
        assert Precedes(tables[i], tables[j]);
      }
    }
  }

  // ----- the commit -----

  // The state a commit meets: flushes that arrived since the choice are in front.
  ghost predicate Ready(late: seq<Table>, tables: seq<Table>, p: LevelPick) {
    && WellOrdered(late + tables)
    && (forall t :: t in late ==> t.level == 0)
    && IsLevelPick(tables, p)
  }

  lemma ReadyLists(late: seq<Table>, tables: seq<Table>, p: LevelPick)
    requires Ready(late, tables, p)
    ensures Chain(tables) && Chain(late + tables)
    ensures forall t, u :: t in late && u in tables ==> Precedes(t, u)
  {
    hide Precedes;
    var all := late + tables;
    forall i, j | 0 <= i < j < |tables| ensures Precedes(tables[i], tables[j]) {
      assert all[|late| + i] == tables[i] && all[|late| + j] == tables[j];
    }
    forall t, u | t in late && u in tables ensures Precedes(t, u) {
      var i :| 0 <= i < |late| && late[i] == t;
      var j :| 0 <= j < |tables| && tables[j] == u;
      assert all[i] == t && all[|late| + j] == u;
    }
  }

  lemma InputsAreListed(tables: seq<Table>, p: LevelPick, t: Table)
    requires IsLevelPick(tables, p)
    ensures t in p.from ==> t in tables && t.level == p.src
    ensures t in p.into <==> t in tables && t.level == p.Dest() && Overlaps(t, p.lo, p.hi)
    ensures p.src == 0 && t in tables && t.level == 0 ==> t in p.from
  {
    hide Overlaps;
    AtLevelMembers(tables, 0, t);
    OverlappingMembers(tables, p.Dest(), p.lo, p.hi, t);
  }

  lemma InputsFormChain(tables: seq<Table>, p: LevelPick)
    requires Chain(tables) && IsLevelPick(tables, p)
    ensures Chain(p.Inputs())
  {
    hide Less, IsSpan, MinKey, MaxKey, Overlapping;
    AtLevelChain(tables, 0);
    OverlappingChain(tables, p.Dest(), p.lo, p.hi);
    var s := p.Inputs();
    forall i, j | 0 <= i < j < |s| ensures Precedes(s[i], s[j]) {
      InputsAreListed(tables, p, s[i]);
      InputsAreListed(tables, p, s[j]);
      if j < |p.from| {
        assert s[i] == p.from[i] && s[j] == p.from[j];
      } else if i >= |p.from| {
        assert s[i] == p.into[i - |p.from|] && s[j] == p.into[j - |p.from|];
      } else {
        assert s[i] in p.from && s[j] in p.into;
      }
    }
  }

  // A key of a source table lies in the picked range.
  lemma SourceKeyInSpan(p: LevelPick, t: Table, k: Key)
    requires IsSpan(p.from, p.lo, p.hi) && t in p.from && k in t.recs
    ensures AtMost(p.lo, k) && AtMost(k, p.hi)
  {
    hide Less;
    KeyOrder();
    KeyWithinRange(t, k);
  }

  // Two tables of one deep level share no key.
  lemma SameLevelDisjoint(t: Table, u: Table, k: Key)
    requires Comparable(t, u) && t.level == u.level && t.level > 0
    ensures !(k in t.recs && k in u.recs)
  {
    hide Less;
    KeyOrder();
    if k in t.recs && k in u.recs {
      KeyWithinRange(t, k);
      KeyWithinRange(u, k);
    }
  }

  // A table left out of the merge that holds a key some input holds is either above
  // every input holding that key or strictly below the destination level.
  lemma LeftOutAboveOrBelow(late: seq<Table>, tables: seq<Table>, p: LevelPick, u: Table, t: Table, k: Key)
    requires Ready(late, tables, p)
    requires u in late + tables && u !in p.Inputs() && k in u.recs
    requires t in p.Inputs() && k in t.recs
    ensures (u.level < p.Dest() && Precedes(u, t)) || u.level > p.Dest()
  {
    hide Less;
    KeyOrder();
    ReadyLists(late, tables, p);
    InputsAreListed(tables, p, t);
    InputsAreListed(tables, p, u);
    assert t in tables;
    if u in late {
      assert Precedes(u, t);
    } else {
      assert Comparable(u, t) by {
        assert u != t;
        var i :| 0 <= i < |tables| && tables[i] == u;
        var j :| 0 <= j < |tables| && tables[j] == t;
        assert i != j;
        assert Precedes(tables[i], tables[j]) || Precedes(tables[j], tables[i]);
      }
      if u.level == t.level && t.level > 0 {
        SameLevelDisjoint(u, t, k);
      }
      if u.level == p.Dest() && t in p.from {
        SourceKeyInSpan(p, t, k);
        KeyWithinRange(u, k);
      }
    }
  }

  // The inputs' own newest record of a key is the one the merge keeps.
  lemma InputLeader(late: seq<Table>, tables: seq<Table>, p: LevelPick, t: Table, k: Key)
    requires Ready(late, tables, p)
    requires Leads(t, late + tables, k) && t in p.Inputs()
    ensures k in Overlay(p.Inputs()) && Overlay(p.Inputs())[k] == t.recs[k]
  {
    hide Precedes;
    ReadyLists(late, tables, p);
    InputsFormChain(tables, p);
    forall u | u in p.Inputs() && k in u.recs ensures u == t || Precedes(t, u) {
      InputsAreListed(tables, p, u);
      assert u in late + tables;
    }
    LeaderAnswers(t, p.Inputs(), k);
    LookupOverlay(p.Inputs(), k);
  }

  lemma OverlayKeyHasInput(s: seq<Table>, k: Key) returns (t: Table)
    requires k in Overlay(s)
    ensures t in s && k in t.recs
  {
    LookupOverlay(s, k);
    var i := LookupSome(s, k);
    t := s[i];
  }

  lemma SplitKeysAreInputs(outs: seq<Table>, p: LevelPick, o: Table, k: Key)
    requires IsSplit(outs, p.Dest(), Merged(p.Inputs(), p.drop)) && o in outs && k in o.recs
    ensures k in Overlay(p.Inputs())
  {
    hide Less, Overlay, MinKey, MaxKey;
    assert k in Merged(p.Inputs(), p.drop);
  }

  // An unchosen destination table lies clear of every output file: the picked range
  // together with the chosen destination tables is convex, so no gap inside an output
  // file's range can hold it.
  lemma UnchosenLiesClear(late: seq<Table>, tables: seq<Table>, p: LevelPick, u: Table, o: Table)
    requires Ready(late, tables, p)
    requires u in late + tables && u !in p.Inputs() && u.level == p.Dest()
    requires o.level == p.Dest() && o.recs != map[]
    requires forall k :: k in o.recs ==> k in Overlay(p.Inputs())
    ensures Comparable(u, o)
  {
    hide Less;
    KeyOrder();
    InputsAreListed(tables, p, u);
    RangeIsOrdered(u);
    var x := if Less(MaxKey(u), p.lo) then MinKey(o) else MaxKey(o);
    assert x in o.recs.Keys;
    var t := OverlayKeyHasInput(p.Inputs(), x);
    KeyWithinRange(t, x);
    InputsAreListed(tables, p, t);
    if t in p.from {
      SourceKeyInSpan(p, t, x);
    } else {
      ReadyLists(late, tables, p);
      assert Comparable(u, t) by {
        var i :| 0 <= i < |tables| && tables[i] == u;
        var j :| 0 <= j < |tables| && tables[j] == t;
        assert Precedes(tables[i], tables[j]) || Precedes(tables[j], tables[i]);
      }
      RangeIsOrdered(t);
    }
  }

  // The committed list is well ordered again, so each deep level keeps pairwise
  // disjoint key ranges.
  lemma CommitKeepsOrder(late: seq<Table>, tables: seq<Table>, p: LevelPick, outs: seq<Table>)
    requires Ready(late, tables, p)
    requires IsSplit(outs, p.Dest(), Merged(p.Inputs(), p.drop))
    ensures WellOrdered(Commit(late + tables, p.Inputs(), outs))
  {
    hide Precedes, Less, MinKey, MaxKey, Merged, IsLevelPick, Without, Reorder;
    var all := late + tables;
    var kept := Without(all, p.Inputs());
    var next := kept + outs;
    ReadyLists(late, tables, p);
    WithoutChain(all, p.Inputs());
    forall i, j | 0 <= i < j < |next| ensures Comparable(next[i], next[j]) {
      if j < |kept| {
        assert next[i] == kept[i] && next[j] == kept[j];
      } else if i >= |kept| {
        SplitIsChain(outs, p.Dest(), Merged(p.Inputs(), p.drop), i - |kept|, j - |kept|);
      } else {
        KeptVersusOutput(late, tables, p, outs, next[i], next[j]);
      }
    }
    ReorderMakesChain(next);
    forall t | t in Reorder(next) ensures Solid(t) {
      ReorderMembers(next, t);
      WithoutMembers(all, p.Inputs(), t);
    }
  }

  lemma SplitIsChain(outs: seq<Table>, level: nat, merged: map<Key, Body>, i: nat, j: nat)
    requires IsSplit(outs, level, merged) && level > 0 && i < j < |outs|
    ensures Precedes(outs[i], outs[j])
  {
    hide Less;
    assert outs[i] in outs && outs[j] in outs;
  }

  lemma KeptVersusOutput(late: seq<Table>, tables: seq<Table>, p: LevelPick, outs: seq<Table>, u: Table, o: Table)
    requires Ready(late, tables, p)
    requires IsSplit(outs, p.Dest(), Merged(p.Inputs(), p.drop))
    requires u in Without(late + tables, p.Inputs()) && o in outs
    ensures Comparable(u, o)
  {
    hide Less, Overlay, Without;
    WithoutMembers(late + tables, p.Inputs(), u);
    if u.level == p.Dest() {
      forall k | k in o.recs ensures k in Overlay(p.Inputs()) {
        SplitKeysAreInputs(outs, p, o, k);
      }
      UnchosenLiesClear(late, tables, p, u, o);
    }
  }

  lemma CommitMembers(all: seq<Table>, inputs: seq<Table>, outs: seq<Table>, t: Table)
    ensures t in Commit(all, inputs, outs) <==> (t in all && t !in inputs) || t in outs
  {
    ReorderMembers(Without(all, inputs) + outs, t);
    WithoutMembers(all, inputs, t);
  }

  // Case: the newest record of k is in a table the merge leaves alone.
  lemma CommitKeepsOutsideLeader(late: seq<Table>, tables: seq<Table>, p: LevelPick, outs: seq<Table>, t: Table, k: Key)
    requires Ready(late, tables, p)
    requires IsSplit(outs, p.Dest(), Merged(p.Inputs(), p.drop))
    requires Leads(t, late + tables, k) && t !in p.Inputs()
    ensures Leads(t, Commit(late + tables, p.Inputs(), outs), k)
  {
    hide Commit;
    var all := late + tables;
    CommitMembers(all, p.Inputs(), outs, t);
    forall u | u in Commit(all, p.Inputs(), outs) && k in u.recs ensures u == t || Precedes(t, u) {
      CommitMembers(all, p.Inputs(), outs, u);
      if u in outs {
        SplitKeysAreInputs(outs, p, u, k);
        var i := OverlayKeyHasInput(p.Inputs(), k);
        InputsAreListed(tables, p, i);
        LeftOutAboveOrBelow(late, tables, p, t, i, k);
        assert i in all && Precedes(t, i);
      }
    }
  }

  // Case: the newest record of k is in an input; then every other table that still
  // holds k lies below the destination.
  lemma OthersBelow(late: seq<Table>, tables: seq<Table>, p: LevelPick, t: Table, u: Table, k: Key)
    requires Ready(late, tables, p)
    requires Leads(t, late + tables, k) && t in p.Inputs()
    requires u in late + tables && u !in p.Inputs() && k in u.recs
    ensures u.level > p.Dest()
  {
    hide Less;
    LeftOutAboveOrBelow(late, tables, p, u, t, k);
    assert Precedes(t, u);
    SortsBeforeDecides(t, u);
  }

  // The output file that holds the key answers for it after the commit.
  lemma OutputLeads(late: seq<Table>, tables: seq<Table>, p: LevelPick, outs: seq<Table>, t: Table, o: Table, k: Key)
    requires Ready(late, tables, p)
    requires IsSplit(outs, p.Dest(), Merged(p.Inputs(), p.drop))
    requires Leads(t, late + tables, k) && t in p.Inputs() && o in outs && k in o.recs
    ensures Leads(o, Commit(late + tables, p.Inputs(), outs), k)
  {
    hide Commit, Less, IsSplit, Merged;
    var all := late + tables;
    CommitMembers(all, p.Inputs(), outs, o);
    forall u | u in Commit(all, p.Inputs(), outs) && k in u.recs ensures u == o || Precedes(o, u) {
      CommitMembers(all, p.Inputs(), outs, u);
      if u in outs {
        OutputsDisjoint(outs, p.Dest(), Merged(p.Inputs(), p.drop), o, u, k);
      } else {
        OthersBelow(late, tables, p, t, u, k);
        assert o.level == p.Dest() by {
          OutputLevel(outs, p.Dest(), Merged(p.Inputs(), p.drop), o);
        }
      }
    }
  }

  lemma OutputLevel(outs: seq<Table>, level: nat, merged: map<Key, Body>, o: Table)
    requires IsSplit(outs, level, merged) && o in outs
    ensures o.level == level
  {
    hide Less;
  }

  // No table holds a key whose tombstone was dropped.
  lemma DroppedKeyIsGone(late: seq<Table>, tables: seq<Table>, p: LevelPick, outs: seq<Table>, t: Table, k: Key)
    requires Ready(late, tables, p)
    requires IsSplit(outs, p.Dest(), Merged(p.Inputs(), p.drop))
    requires Leads(t, late + tables, k) && t in p.Inputs() && p.drop && k !in Merged(p.Inputs(), true)
    ensures Lookup(Commit(late + tables, p.Inputs(), outs), k) == None
  {
    hide Commit, Less, WellOrdered, Overlay, Lookup;
    var all := late + tables;
    var next := Commit(all, p.Inputs(), outs);
    forall j | 0 <= j < |next| ensures k !in next[j].recs {
      CommitMembers(all, p.Inputs(), outs, next[j]);
      if next[j] !in outs && k in next[j].recs {
        OthersBelow(late, tables, p, t, next[j], k);
      }
    }
    LookupNone(next, k);
  }

  lemma CommitKeepsInputLeader(late: seq<Table>, tables: seq<Table>, p: LevelPick, outs: seq<Table>, t: Table, k: Key)
    requires Ready(late, tables, p)
    requires IsSplit(outs, p.Dest(), Merged(p.Inputs(), p.drop))
    requires Leads(t, late + tables, k) && t in p.Inputs()
    ensures Visible(Commit(late + tables, p.Inputs(), outs), k) ==
            if t.recs[k] == Deleted then None else Some(t.recs[k])
  {
    hide Commit, Less, Ready, Leads, Overlay, Lookup, Precedes, MinKey, MaxKey;
    InputLeader(late, tables, p, t, k);
    if k in Merged(p.Inputs(), p.drop) {
      var o :| o in outs && k in o.recs;
      OutputLeads(late, tables, p, outs, t, o, k);
      CommitKeepsOrder(late, tables, p, outs);
      LeaderAnswers(o, Commit(late + tables, p.Inputs(), outs), k);
    } else {
      DroppedKeyIsGone(late, tables, p, outs, t, k);
    }
  }

  lemma OutputsDisjoint(outs: seq<Table>, level: nat, merged: map<Key, Body>, o: Table, u: Table, k: Key)
    requires IsSplit(outs, level, merged) && level > 0
    requires o in outs && u in outs && k in o.recs && k in u.recs
    ensures o == u
  {
    hide Less;
    var i :| 0 <= i < |outs| && outs[i] == o;
    var j :| 0 <= j < |outs| && outs[j] == u;
    if i < j {
      SplitIsChain(outs, level, merged, i, j);
      SameLevelDisjoint(o, u, k);
    } else if j < i {
      SplitIsChain(outs, level, merged, j, i);
      SameLevelDisjoint(u, o, k);
    }
  }

  // A leveled compaction preserves every key's visible record although its inputs are
  // not contiguous in the read order, flushes arrived meanwhile, the list is re-sorted,
  // and tombstones are dropped whenever no table lies below the destination.
  lemma CommitKeepsVisible(late: seq<Table>, tables: seq<Table>, p: LevelPick, outs: seq<Table>)
    requires Ready(late, tables, p)
    requires IsSplit(outs, p.Dest(), Merged(p.Inputs(), p.drop))
    ensures SameVisible(Commit(late + tables, p.Inputs(), outs), late + tables)
  {
    hide Commit;
    var all := late + tables;
    var next := Commit(all, p.Inputs(), outs);
    ReadyLists(late, tables, p);
    CommitKeepsOrder(late, tables, p, outs);
    forall k ensures Visible(next, k) == Visible(all, k) {
      if Lookup(all, k).Some? {
        var t := LeaderExists(all, k);
        if t in p.Inputs() {
          CommitKeepsInputLeader(late, tables, p, outs, t, k);
        } else {
          CommitKeepsOutsideLeader(late, tables, p, outs, t, k);
          LeaderAnswers(t, next, k);
        }
      } else {
        CommitAddsNoKey(late, tables, p, outs, k);
      }
    }
  }

  lemma CommitAddsNoKey(late: seq<Table>, tables: seq<Table>, p: LevelPick, outs: seq<Table>, k: Key)
    requires Ready(late, tables, p)
    requires IsSplit(outs, p.Dest(), Merged(p.Inputs(), p.drop))
    requires Lookup(late + tables, k) == None
    ensures Lookup(Commit(late + tables, p.Inputs(), outs), k) == None
  {
    hide Commit;
    var all := late + tables;
    var next := Commit(all, p.Inputs(), outs);
    forall t | t in all ensures k !in t.recs {
      LookupOverlay(all, k);
      MemberInOverlay(all, t, k);
    }
    forall j | 0 <= j < |next| ensures k !in next[j].recs {
      CommitMembers(all, p.Inputs(), outs, next[j]);
      if next[j] in outs && k in next[j].recs {
        SplitKeysAreInputs(outs, p, next[j], k);
        var i := OverlayKeyHasInput(p.Inputs(), k);
        InputsAreListed(tables, p, i);
      }
    }
    LookupNone(next, k);
  }

  lemma {:induction false} MemberInOverlay(s: seq<Table>, t: Table, k: Key)
    requires t in s
    ensures k in t.recs ==> k in Overlay(s)
  {
    if t != s[0] {
      MemberInOverlay(s[1..], t, k);
    }
  }
}
