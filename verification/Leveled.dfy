// The leveled strategy's read order and the sort that restores it.
module Leveled {
  import opened Keys
  import opened Layers

  // The key range a table caches when opened; an empty table reports the empty key twice.
  ghost function MinKey(t: Table): Key {
    if t.recs == map[] then [] else Least(t.recs.Keys)
  }

  ghost function MaxKey(t: Table): Key {
    if t.recs == map[] then [] else Greatest(t.recs.Keys)
  }

  // In a well-ordered list: shallower levels first; within level 0 the younger file
  // first; within a deeper level the whole range of one table before the other's.
  ghost predicate Precedes(a: Table, b: Table) {
    || a.level < b.level
    || (a.level == 0 && b.level == 0 && a.id > b.id)
    || (a.level == b.level && a.level > 0 && Less(MaxKey(a), MinKey(b)))
  }

  ghost predicate Solid(t: Table) {
    t.level > 0 ==> t.recs != map[]
  }

  ghost predicate WellOrdered(tables: seq<Table>) {
    && (forall i, j :: 0 <= i < j < |tables| ==> Precedes(tables[i], tables[j]))
    && (forall t :: t in tables ==> Solid(t))
  }

  // The comparator of reorder_sstables_locked.
  ghost predicate SortsBefore(a: Table, b: Table) {
    if a.level != b.level then a.level < b.level
    else if a.level == 0 then a.id > b.id
    else Less(MinKey(a), MinKey(b))
  }

  ghost function Insert(s: seq<Table>, t: Table): seq<Table> {
    if s == [] then [t]
    else if SortsBefore(t, s[0]) then [t] + s
    else [s[0]] + Insert(s[1..], t)
  }

  // A stable sort by SortsBefore.
  ghost function Reorder(s: seq<Table>): seq<Table> {
    if s == [] then [] else Insert(Reorder(s[..|s| - 1]), s[|s| - 1])
  }

  lemma KeyWithinRange(t: Table, k: Key)
    requires k in t.recs
    ensures AtMost(MinKey(t), k) && AtMost(k, MaxKey(t))
  {
    assert k in t.recs.Keys;
  }

  lemma RangeIsOrdered(t: Table)
    ensures AtMost(MinKey(t), MaxKey(t))
  {
    if t.recs == map[] {
      LessIrreflexive([]);
    } else {
      assert MinKey(t) in t.recs.Keys;
    }
  }

  lemma PrecedesTransitive(a: Table, b: Table, c: Table)
    requires Precedes(a, b) && Precedes(b, c)
    ensures Precedes(a, c)
  {
    hide Less;
    KeyOrder();
    RangeIsOrdered(b);
  }

  // For two tables of a well-ordered list the sort's comparator agrees with the order.
  lemma SortsBeforeDecides(a: Table, b: Table)
    requires Precedes(a, b) || Precedes(b, a)
    ensures SortsBefore(a, b) <==> Precedes(a, b)
    ensures !(Precedes(a, b) && Precedes(b, a))
  {
    hide Less;
    KeyOrder();
    RangeIsOrdered(a);
    RangeIsOrdered(b);
  }

  lemma {:induction false} InsertPermutes(s: seq<Table>, t: Table)
    ensures multiset(Insert(s, t)) == multiset(s) + multiset{t}
  {
    if s != [] && !SortsBefore(t, s[0]) {
      InsertPermutes(s[1..], t);
      assert s == [s[0]] + s[1..];
    }
  }

  lemma {:induction false} ReorderPermutes(s: seq<Table>)
    ensures multiset(Reorder(s)) == multiset(s)
  {
    hide Insert;
    if s != [] {
      ReorderPermutes(s[..|s| - 1]);
      InsertPermutes(Reorder(s[..|s| - 1]), s[|s| - 1]);
      assert s == s[..|s| - 1] + [s[|s| - 1]];
    }
  }

  lemma ReorderMembers(s: seq<Table>, t: Table)
    ensures t in Reorder(s) <==> t in s
  {
    hide Reorder;
    ReorderPermutes(s);
    assert t in Reorder(s) <==> t in multiset(Reorder(s));
    assert t in s <==> t in multiset(s);
  }

  ghost predicate Chain(s: seq<Table>) {
    forall i, j :: 0 <= i < j < |s| ==> Precedes(s[i], s[j])
  }

  ghost predicate Comparable(a: Table, b: Table) {
    Precedes(a, b) || Precedes(b, a)
  }

  lemma {:induction false} InsertKeepsChain(s: seq<Table>, t: Table)
    requires Chain(s)
    requires forall u :: u in s ==> Comparable(u, t)
    ensures Chain(Insert(s, t))
  {
    if s != [] {
      assert Comparable(s[0], t);
      SortsBeforeDecides(t, s[0]);
      if SortsBefore(t, s[0]) {
        forall j | 0 < j < |s| ensures Precedes(t, s[j]) {
          PrecedesTransitive(t, s[0], s[j]);
        }
      } else {
        InsertKeepsChain(s[1..], t);
        InsertPermutes(s[1..], t);
        var rest := Insert(s[1..], t);
        forall u | u in rest ensures Precedes(s[0], u) {
          assert u in multiset(rest);
          assert u == t || u in s[1..];
        }
      }
    }
  }

  // Sorting tables that are pairwise comparable yields a chain.
  lemma {:induction false} ReorderMakesChain(s: seq<Table>)
    requires forall i, j :: 0 <= i < j < |s| ==> Comparable(s[i], s[j])
    ensures Chain(Reorder(s))
  {
    if s != [] {
      var init, last := s[..|s| - 1], s[|s| - 1];
      ReorderMakesChain(init);
      forall u | u in Reorder(init) ensures Comparable(u, last) {
        ReorderMembers(init, u);
        var i :| 0 <= i < |init| && init[i] == u;
        assert Comparable(s[i], s[|s| - 1]);
      }
      InsertKeepsChain(Reorder(init), last);
    }
  }
}
