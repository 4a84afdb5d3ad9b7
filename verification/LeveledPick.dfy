// Choosing the inputs of a leveled compaction, loop by loop.
module LeveledPick {
  import opened Keys
  import opened Records
  import opened Layers
  import opened Leveled
  import opened LeveledCommit
  import opened Quiesce

  // ----- choosing the inputs -----

  lemma {:induction false} AtLevelSnoc(s: seq<Table>, t: Table, level: nat)
    ensures AtLevel(s + [t], level) == AtLevel(s, level) + (if t.level == level then [t] else [])
  {
    var last := if t.level == level then [t] else [];
    if s == [] {
      Nothing([t]);
      assert [t][1..] == [];
      Nothing(last);
    } else {
      assert (s + [t])[0] == s[0] && (s + [t])[1..] == s[1..] + [t];
      AtLevelSnoc(s[1..], t, level);
      Assoc(if s[0].level == level then [s[0]] else [], AtLevel(s[1..], level), last);
    }
  }

  lemma {:induction false} OverlappingFromLevel(s: seq<Table>, level: nat, lo: Key, hi: Key)
    ensures Overlapping(s, level, lo, hi) == Overlapping(AtLevel(s, level), level, lo, hi)
  {
    hide Overlaps;
    if s != [] {
      OverlappingFromLevel(s[1..], level, lo, hi);
      var rest := AtLevel(s[1..], level);
      if s[0].level == level {
        assert ([s[0]] + rest)[1..] == rest;
      } else {
        assert [] + rest == rest;
      }
    }
  }

  lemma {:induction false} OverlappingSnoc(s: seq<Table>, t: Table, level: nat, lo: Key, hi: Key)
    ensures Overlapping(s + [t], level, lo, hi) ==
            Overlapping(s, level, lo, hi) + (if t.level == level && Overlaps(t, lo, hi) then [t] else [])
  {
    hide Overlaps;
    var last := if t.level == level && Overlaps(t, lo, hi) then [t] else [];
    if s == [] {
      Nothing([t]);
      assert [t][1..] == [];
      Nothing(last);
    } else {
      assert (s + [t])[0] == s[0] && (s + [t])[1..] == s[1..] + [t];
      OverlappingSnoc(s[1..], t, level, lo, hi);
      Assoc(if s[0].level == level && Overlaps(s[0], lo, hi) then [s[0]] else [],
            Overlapping(s[1..], level, lo, hi), last);
    }
  }

  lemma {:induction false} BytesSnoc(s: seq<Table>, t: Table, size: Table -> nat)
    ensures Quiesce.Bytes(s + [t], size) == Quiesce.Bytes(s, size) + size(t)
  {
    if s == [] {
      assert [t][1..] == [];
    } else {
      assert (s + [t])[1..] == s[1..] + [t];
      BytesSnoc(s[1..], t, size);
    }
  }

  function ListAt(byLevel: map<nat, seq<Table>>, level: nat): seq<Table> {
    if level in byLevel then byLevel[level] else []
  }

  ghost predicate Grouped(byLevel: map<nat, seq<Table>>, tables: seq<Table>) {
    forall l: nat :: ListAt(byLevel, l) == AtLevel(tables, l)
  }

  method ByLevel(tables: seq<Table>) returns (byLevel: map<nat, seq<Table>>, maxLevel: nat)
    ensures Grouped(byLevel, tables)
    ensures forall t :: t in tables ==> t.level <= maxLevel
    ensures maxLevel == 0 || exists t :: t in tables && t.level == maxLevel
  {
    hide Grouped, ListAt;
    byLevel, maxLevel := map[], 0;
    var i := 0;
    assert tables[..0] == [];
    NothingGrouped();
    while i < |tables|
      invariant 0 <= i <= |tables| && Grouped(byLevel, tables[..i])
      invariant forall t :: t in tables[..i] ==> t.level <= maxLevel
      invariant maxLevel == 0 || exists t :: t in tables && t.level == maxLevel
    {
      var t := tables[i];
      ghost var before := byLevel;
      byLevel := byLevel[t.level := ListAt(byLevel, t.level) + [t]];
      if t.level > maxLevel {
        maxLevel := t.level;
      }
      GroupedSnoc(before, tables[..i], t);
      assert tables[..i + 1] == tables[..i] + [t];
      i := i + 1;
    }
    assert tables[..i] == tables;
  }

  lemma NothingGrouped()
    ensures Grouped(map[], [])
  {
  }

  lemma GroupedSnoc(byLevel: map<nat, seq<Table>>, tables: seq<Table>, t: Table)
    requires Grouped(byLevel, tables)
    ensures Grouped(byLevel[t.level := ListAt(byLevel, t.level) + [t]], tables + [t])
  {
    hide AtLevel;
    var next := byLevel[t.level := ListAt(byLevel, t.level) + [t]];
    forall l: nat ensures ListAt(next, l) == AtLevel(tables + [t], l) {
      AtLevelSnoc(tables, t, l);
      assert ListAt(byLevel, l) == AtLevel(tables, l);
      Nothing(AtLevel(tables, l));
    }
  }

  method LevelBytes(tables: seq<Table>, size: Table -> nat) returns (total: nat)
    ensures total == Quiesce.Bytes(tables, size)
  {
    total := 0;
    var i := 0;
    while i < |tables|
      invariant 0 <= i <= |tables| && total == Quiesce.Bytes(tables[..i], size)
    {
      assert tables[..i + 1] == tables[..i] + [tables[i]];
      BytesSnoc(tables[..i], tables[i], size);
      total := total + size(tables[i]);
      i := i + 1;
    }
    assert tables[..i] == tables;
  }

  // Level 0 if it has too many tables, else the shallowest level over its budget.
  method ChooseSource(tables: seq<Table>, byLevel: map<nat, seq<Table>>, maxLevel: nat, minMerge: nat,
                      budget: nat -> nat, size: Table -> nat)
    returns (src: Option<nat>)
    requires Grouped(byLevel, tables) && forall t :: t in tables ==> t.level <= maxLevel
    ensures src.Some? ==> SourceDue(tables, minMerge, budget, size, src.value)
    ensures src == None ==> forall l: nat :: !SourceDue(tables, minMerge, budget, size, l)
  {
    hide AtLevel, Quiesce.Bytes;
    assert ListAt(byLevel, 0) == AtLevel(tables, 0);
    if |ListAt(byLevel, 0)| >= minMerge {
      return Some(0);
    }
    var lv := 1;
    while lv <= maxLevel
      invariant 1 <= lv <= maxLevel + 1
      invariant forall l :: 1 <= l < lv ==> Quiesce.Bytes(AtLevel(tables, l), size) <= budget(l)
    {
      assert ListAt(byLevel, lv) == AtLevel(tables, lv);
      var bytes := LevelBytes(ListAt(byLevel, lv), size);
      if bytes > budget(lv) {
        return Some(lv);
      }
      lv := lv + 1;
    }
    src := None;
    forall l: nat ensures !SourceDue(tables, minMerge, budget, size, l) {
      if l > maxLevel {
        EmptyLevel(tables, l, size);
      }
    }
  }

  lemma EmptyLevel(tables: seq<Table>, l: nat, size: Table -> nat)
    requires forall t :: t in tables ==> t.level < l
    ensures Quiesce.Bytes(AtLevel(tables, l), size) == 0
  {
    forall t ensures t !in AtLevel(tables, l) {
      AtLevelMembers(tables, l, t);
    }
    HasMember(AtLevel(tables, l));
  }

  // The cached ranges of the open tables.
  ghost predicate RangesOf(range: Table -> (Key, Key)) {
    forall t :: range(t) == (MinKey(t), MaxKey(t))
  }

  method LowestTable(tables: seq<Table>, range: Table -> (Key, Key)) returns (t: Table)
    requires tables != [] && RangesOf(range)
    ensures t in tables && forall u :: u in tables ==> AtMost(MinKey(t), MinKey(u))
  {
    hide Less, MinKey, MaxKey;
    KeyOrder();
    t := tables[0];
    var i := 1;
    while i < |tables|
      invariant 1 <= i <= |tables| && t in tables
      invariant forall j :: 0 <= j < i ==> AtMost(MinKey(t), MinKey(tables[j]))
    {
      if Less(range(tables[i]).0, range(t).0) {
        t := tables[i];
      }
      i := i + 1;
    }
  }

  method CombinedRange(tables: seq<Table>, range: Table -> (Key, Key)) returns (lo: Key, hi: Key)
    requires tables != [] && RangesOf(range)
    ensures IsSpan(tables, lo, hi)
  {
    hide Less, MinKey, MaxKey;
    KeyOrder();
    lo, hi := range(tables[0]).0, range(tables[0]).1;
    ghost var a, b := tables[0], tables[0];
    var i := 0;
    while i < |tables|
      invariant 0 <= i <= |tables|
      invariant a in tables && b in tables && MinKey(a) == lo && MaxKey(b) == hi
      invariant forall j :: 0 <= j < i ==> AtMost(lo, MinKey(tables[j])) && AtMost(MaxKey(tables[j]), hi)
    {
      if Less(range(tables[i]).0, lo) {
        lo := range(tables[i]).0;
        a := tables[i];
      }
      if Less(hi, range(tables[i]).1) {
        hi := range(tables[i]).1;
        b := tables[i];
      }
      i := i + 1;
    }
  }

  method OverlappingTables(tables: seq<Table>, level: nat, lo: Key, hi: Key, range: Table -> (Key, Key))
    returns (out: seq<Table>)
    requires RangesOf(range) && forall t :: t in tables ==> t.level == level
    ensures out == Overlapping(tables, level, lo, hi)
  {
    hide Less, MinKey, MaxKey, Overlapping;
    out := [];
    var i := 0;
    assert Overlapping(tables[..0], level, lo, hi) == [] by {
      NothingOverlaps(level, lo, hi);
    }
    while i < |tables|
      invariant 0 <= i <= |tables| && out == Overlapping(tables[..i], level, lo, hi)
    {
      var t := tables[i];
      assert tables[..i + 1] == tables[..i] + [t];
      OverlappingSnoc(tables[..i], t, level, lo, hi);
      if !(Less(range(t).1, lo) || Less(hi, range(t).0)) {
        out := out + [t];
      }
      i := i + 1;
    }
    assert tables[..i] == tables;
  }

  lemma NothingOverlaps(level: nat, lo: Key, hi: Key)
    ensures Overlapping([], level, lo, hi) == []
  {
  }

  // The first critical section: None exactly when no level is due.
  method PickLevel(tables: seq<Table>, minMerge: nat, budget: nat -> nat, size: Table -> nat,
                   range: Table -> (Key, Key))
    returns (p: Option<LevelPick>)
    requires minMerge >= 1 && RangesOf(range)
    ensures p == None <==> forall src: nat :: !SourceDue(tables, minMerge, budget, size, src)
    ensures p.Some? ==> IsLevelPick(tables, p.value) && SourceDue(tables, minMerge, budget, size, p.value.src)
  {
    hide Less, MinKey, MaxKey, AtLevel, Overlapping, IsSpan, Quiesce.Bytes;
    var byLevel, maxLevel := ByLevel(tables);
    var chosen := ChooseSource(tables, byLevel, maxLevel, minMerge, budget, size);
    if chosen == None {
      return None;
    }
    var src := chosen.value;
    var dest := src + 1;
    assert ListAt(byLevel, src) == AtLevel(tables, src) && ListAt(byLevel, dest) == AtLevel(tables, dest);
    assert ListAt(byLevel, src) != [] by {
      DueIsNonEmpty(tables, minMerge, budget, size, src);
    }
    var from := ListAt(byLevel, 0);
    if src > 0 {
      var t := LowestTable(ListAt(byLevel, src), range);
      from := [t];
      LowestOfLevel(tables, src, t);
    }
    var lo, hi := CombinedRange(from, range);
    forall t ensures t in AtLevel(tables, dest) ==> t.level == dest {
      AtLevelMembers(tables, dest, t);
    }
    var into := OverlappingTables(ListAt(byLevel, dest), dest, lo, hi, range);
    OverlappingFromLevel(tables, dest, lo, hi);
    p := Some(LevelPick(src, from, into, lo, hi, dest >= maxLevel));
  }

  lemma DueIsNonEmpty(tables: seq<Table>, minMerge: nat, budget: nat -> nat, size: Table -> nat, src: nat)
    requires minMerge >= 1 && SourceDue(tables, minMerge, budget, size, src)
    ensures AtLevel(tables, src) != []
  {
    hide AtLevel;
  }

  lemma LowestOfLevel(tables: seq<Table>, src: nat, t: Table)
    requires t in AtLevel(tables, src) && forall u :: u in AtLevel(tables, src) ==> AtMost(MinKey(t), MinKey(u))
    ensures IsLowest(t, tables) && t.level == src
  {
    hide Less, MinKey, AtLevel;
    AtLevelMembers(tables, src, t);
    forall u | u in tables && u.level == t.level ensures AtMost(MinKey(t), MinKey(u)) {
      AtLevelMembers(tables, src, u);
    }
  }
}
