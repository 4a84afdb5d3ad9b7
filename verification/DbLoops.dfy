// The loops of the database object: each computes a function the state machine uses.
module DbLoops {
  import opened Keys
  import opened Records
  import opened Layers
  import opened Leveled
  import opened LeveledCommit
  import opened LeveledPick
  import opened LeveledSplit
  import opened Merge
  import opened Pick
  import opened Store

  // The table lists the live tables in read order.
  method DescribeTables(tables: seq<Table>) returns (listed: seq<Listed>)
    ensures |listed| == |tables|
    ensures forall i :: 0 <= i < |tables| ==> listed[i] == Listed(tables[i].id, tables[i].level)
  {
    listed := [];
    var i := 0;
    while i < |tables|
      invariant 0 <= i <= |tables| == |listed| + (|tables| - i)
      invariant forall j :: 0 <= j < i ==> listed[j] == Listed(tables[j].id, tables[j].level)
    {
      listed := listed + [Listed(tables[i].id, tables[i].level)];
      i := i + 1;
    }
  }

  // Reopens the manifest's tables in its order.
  method LoadTables(listed: seq<Listed>, files: map<nat, map<Key, Body>>) returns (tables: seq<Table>)
    requires forall l :: l in listed ==> l.id in files
    ensures tables == TablesOf(listed, files)
  {
    tables := [];
    var i := 0;
    while i < |listed|
      invariant 0 <= i <= |listed| && |tables| == i
      invariant forall j :: 0 <= j < i ==> tables[j] == TablesOf(listed, files)[j]
    {
      assert listed[i] in listed;
      tables := tables + [Table(listed[i].id, listed[i].level, files[listed[i].id])];
      i := i + 1;
    }
  }

  // Removes every file not kept.
  method RemoveOrphans<T>(files: map<nat, T>, keep: set<nat>) returns (left: map<nat, T>)
    ensures left == map id | id in files && id in keep :: files[id]
  {
    left := files;
    var todo := files.Keys;
    while todo != {}
      invariant todo <= files.Keys
      invariant left == map id | id in files && (id in todo || id in keep) :: files[id]
      decreases |todo|
    {
      var id :| id in todo;
      todo := todo - {id};
      if id !in keep {
        left := left - {id};
      }
    }
  }

  // The last element of a moves to the front of c.
  lemma Regroup<T>(a: seq<T>, x: T, c: seq<T>)
    ensures a + ([x] + c) == (a + [x]) + c
  {
  }

  lemma WithoutAt(tables: seq<Table>, i: nat, inputs: seq<Table>)
    requires i < |tables|
    ensures Without(tables[i..], inputs) ==
            if tables[i] in inputs then Without(tables[i + 1..], inputs)
            else [tables[i]] + Without(tables[i + 1..], inputs)
  {
    assert tables[i..][1..] == tables[i + 1..];
    assert [] + Without(tables[i + 1..], inputs) == Without(tables[i + 1..], inputs);
  }

  lemma InstallAt(tables: seq<Table>, i: nat, inputs: seq<Table>, output: Table)
    requires i < |tables|
    ensures Install(tables[i..], inputs, output) ==
            if tables[i] in inputs then [output] + Without(tables[i + 1..], inputs)
            else [tables[i]] + Install(tables[i + 1..], inputs, output)
  {
    assert tables[i..][1..] == tables[i + 1..];
  }

  lemma InstallEnds(tables: seq<Table>, inputs: seq<Table>, output: Table)
    ensures tables[0..] == tables
    ensures Without(tables[|tables|..], inputs) == []
    ensures Install(tables[|tables|..], inputs, output) == [output]
  {
  }

  // The merge output takes the newest input's slot; the other inputs go.
  method InstallMergeResult(tables: seq<Table>, inputs: seq<Table>, output: Table) returns (next: seq<Table>)
    ensures next == Install(tables, inputs, output)
  {
    hide Install, Without;
    next := [];
    var inserted := false;
    var i := 0;
    InstallEnds(tables, inputs, output);
    while i < |tables|
      invariant 0 <= i <= |tables|
      invariant Install(tables, inputs, output) ==
                next + if inserted then Without(tables[i..], inputs) else Install(tables[i..], inputs, output)
    {
      var t := tables[i];
      InstallAt(tables, i, inputs, output);
      WithoutAt(tables, i, inputs);
      if t in inputs {
        if !inserted {
          Regroup(next, output, Without(tables[i + 1..], inputs));
          next := next + [output];
          inserted := true;
        }
      } else {
        Regroup(next, t,
                if inserted then Without(tables[i + 1..], inputs) else Install(tables[i + 1..], inputs, output));
        next := next + [t];
      }
      i := i + 1;
    }
    if !inserted {
      next := next + [output];
    } else {
      assert next + [] == next;
    }
  }

  // The tables that are not inputs, in order.
  method RemoveInputs(tables: seq<Table>, inputs: seq<Table>) returns (next: seq<Table>)
    ensures next == Without(tables, inputs)
  {
    hide Without;
    next := [];
    var i := 0;
    assert tables[0..] == tables;
    while i < |tables|
      invariant 0 <= i <= |tables| && Without(tables, inputs) == next + Without(tables[i..], inputs)
    {
      WithoutAt(tables, i, inputs);
      if tables[i] !in inputs {
        Regroup(next, tables[i], Without(tables[i + 1..], inputs));
        next := next + [tables[i]];
      }
      i := i + 1;
    }
    NothingLeft(inputs);
    assert tables[i..] == [] && next + [] == next;
  }

  lemma NothingLeft(inputs: seq<Table>)
    ensures Without([], inputs) == []
  {
  }

  // The sort's comparator on the cached ranges.
  predicate SortsBeforeBy(a: Table, b: Table, range: Table -> (Key, Key)) {
    if a.level != b.level then a.level < b.level
    else if a.level == 0 then a.id > b.id
    else Less(range(a).0, range(b).0)
  }

  lemma InsertAt(s: seq<Table>, i: nat, t: Table)
    requires i <= |s|
    ensures Insert(s[i..], t) ==
            if i == |s| || SortsBefore(t, s[i]) then [t] + s[i..] else [s[i]] + Insert(s[i + 1..], t)
  {
    hide SortsBefore;
    if i < |s| {
      assert s[i..][1..] == s[i + 1..];
    }
  }

  method InsertTable(s: seq<Table>, t: Table, range: Table -> (Key, Key)) returns (out: seq<Table>)
    requires RangesOf(range)
    ensures out == Insert(s, t)
  {
    hide Less, MinKey, MaxKey, Insert;
    var i := 0;
    assert s[0..] == s;
    while i < |s| && !SortsBeforeBy(t, s[i], range)
      invariant 0 <= i <= |s| && Insert(s, t) == s[..i] + Insert(s[i..], t)
    {
      InsertAt(s, i, t);
      Regroup(s[..i], s[i], Insert(s[i + 1..], t));
      i := i + 1;
    }
    InsertAt(s, i, t);
    Regroup(s[..i], t, s[i..]);
    out := s[..i] + [t] + s[i..];
  }

  // A stable sort by level, then sequence number or first key.
  method SortTables(s: seq<Table>, range: Table -> (Key, Key)) returns (out: seq<Table>)
    requires RangesOf(range)
    ensures out == Reorder(s)
  {
    hide Insert, RangesOf;
    out := [];
    var i := 0;
    assert s[..0] == [];
    while i < |s|
      invariant 0 <= i <= |s| && out == Reorder(s[..i])
    {
      assert s[..i + 1][..i] == s[..i];
      out := InsertTable(out, s[i], range);
      i := i + 1;
    }
    assert s[..i] == s;
  }

  // Stands for draining a table's cursor, which enumerates its records in key order; over
  // open files the merge below is OpenTables.MergeTables.
  method ReadTable(recs: map<Key, Body>) returns (out: seq<Record>)
    ensures out == Listing(recs)
  {
    hide Less, Listing;
    out := [];
    var rest := recs;
    while rest != map[]
      invariant out + Listing(rest) == Listing(recs)
      decreases |rest|
    {
      SomeLeast(rest);
      var k :| k in rest && forall j :: j in rest ==> !Less(j, k);
      ListingHead(rest, k);
      MapShrinks(rest, k);
      out := out + [Record(k, rest[k])];
      rest := rest - {k};
    }
    NothingListed();
  }

  lemma SomeLeast(m: map<Key, Body>)
    requires m != map[]
    ensures exists k :: k in m && forall j :: j in m ==> !Less(j, k)
  {
    hide Less;
    KeyOrder();
    LeastExists(m.Keys);
    var k :| IsLeast(k, m.Keys);
    assert k in m && forall j :: j in m ==> j in m.Keys;
  }

  lemma ListingHead(m: map<Key, Body>, k: Key)
    requires k in m && forall j :: j in m ==> !Less(j, k)
    ensures Listing(m) == [Record(k, m[k])] + Listing(m - {k})
  {
    hide Less;
    KeyOrder();
    assert IsLeast(k, m.Keys);
    assert IsLeast(Least(m.Keys), m.Keys);
  }

  lemma NothingListed()
    ensures Listing(map[]) == []
  {
  }

  // The merge of some tables' contents, read through their cursors.
  method MergeTables(inputs: seq<Table>, drop: bool) returns (out: seq<Record>)
    ensures Ascending(out) && ToMap(out) == Merged(inputs, drop)
    ensures out == Listing(Merged(inputs, drop))
  {
    hide Less, Listing, ToMap, OverlayOf, Overlay, Ascending;
    var lists: seq<seq<Record>> := [];
    var i := 0;
    while i < |inputs|
      invariant 0 <= i <= |inputs| && |lists| == i
      invariant forall j :: 0 <= j < i ==> lists[j] == Listing(inputs[j].recs)
    {
      var l := ReadTable(inputs[i].recs);
      lists := lists + [l];
      i := i + 1;
    }
    forall j | 0 <= j < |lists| ensures Ascending(lists[j]) && ToMap(lists[j]) == inputs[j].recs {
      ListingOf(inputs[j].recs);
    }
    OverlayOfTables(lists, inputs);
    out := MergeRecords(lists, drop);
  }

  // The picked tables, newest first.
  method ChosenTables(tables: seq<Table>, indices: seq<nat>, ghost a: nat, ghost b: nat) returns (inputs: seq<Table>)
    requires a <= b <= |tables| && indices == Span(a, b)
    ensures inputs == tables[a..b]
  {
    inputs := [];
    var k := 0;
    while k < |indices|
      invariant 0 <= k <= |indices| == b - a && |inputs| == k
      invariant forall j :: 0 <= j < k ==> inputs[j] == tables[a + j]
    {
      inputs := inputs + [tables[indices[k]]];
      k := k + 1;
    }
  }

  // Numbers the output files from id.
  method NumberOutputs(groups: seq<seq<Record>>, id: nat, level: nat) returns (outs: seq<Table>)
    ensures outs == OutputTables(groups, id, level)
  {
    hide ToMap;
    outs := [];
    var i := 0;
    while i < |groups|
      invariant 0 <= i <= |groups| && |outs| == i
      invariant forall j :: 0 <= j < i ==> outs[j] == Table(id + j, level, ToMap(groups[j]))
    {
      outs := outs + [Table(id + i, level, ToMap(groups[i]))];
      i := i + 1;
    }
  }
}
