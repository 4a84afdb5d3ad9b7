// What a list of tables, newest first, answers for a key, and which changes to the
// list leave every answer alone.
module Layers {
  import opened Keys
  import opened Records

  // One live SSTable: its file's sequence number, its compaction level (0 under the
  // size-tiered strategy) and its contents.
  datatype Table = Table(id: nat, level: nat, recs: map<Key, Body>)

  // The outcome of a read: Broken stands for a value pointer that reads past the end
  // of its log or names no open log.
  datatype Answer = Found(value: Bytes) | Missing | Broken

  type Logs = map<nat, Bytes>

  // A positioned read of a value-log payload. Nothing is read for an empty payload, so its
  // offset may lie anywhere.
  predicate InLog(p: ValuePtr, logs: Logs) {
    p.gen in logs && (p.len == 0 || p.offset + p.len <= |logs[p.gen]|)
  }

  function LogValue(p: ValuePtr, logs: Logs): Bytes
    requires InLog(p, logs)
  {
    if p.len == 0 then [] else logs[p.gen][p.offset..p.offset + p.len]
  }

  function Resolve(b: Body, logs: Logs): Answer {
    match b
    case Inline(v) => Found(v)
    case Deleted => Missing
    case Separated(p) => if InLog(p, logs) then Found(LogValue(p, logs)) else Broken
  }

  // The newest record of a key.
  function Lookup(tables: seq<Table>, k: Key): Option<Body> {
    if tables == [] then None
    else if k in tables[0].recs then Some(tables[0].recs[k])
    else Lookup(tables[1..], k)
  }

  // The newest record, with a tombstone read as no record.
  function Visible(tables: seq<Table>, k: Key): Option<Body> {
    if Lookup(tables, k) == Some(Deleted) then None else Lookup(tables, k)
  }

  function Read(tables: seq<Table>, logs: Logs, k: Key): Answer {
    match Lookup(tables, k)
    case None => Missing
    case Some(b) => Resolve(b, logs)
  }

  // A read through a memtable layer on top of the tables.
  function View(upper: map<Key, Body>, tables: seq<Table>, logs: Logs, k: Key): Answer {
    if k in upper then Resolve(upper[k], logs) else Read(tables, logs, k)
  }

  // The newest-first overlay of the tables' contents.
  function Overlay(tables: seq<Table>): map<Key, Body> {
    if tables == [] then map[] else Overlay(tables[1..]) + tables[0].recs
  }

  function DropDeleted(m: map<Key, Body>): map<Key, Body> {
    map k | k in m && m[k] != Deleted :: m[k]
  }

  // What a compaction writes for its inputs.
  function Merged(inputs: seq<Table>, drop: bool): map<Key, Body> {
    if drop then DropDeleted(Overlay(inputs)) else Overlay(inputs)
  }

  ghost predicate SameVisible(a: seq<Table>, b: seq<Table>) {
    forall k :: Visible(a, k) == Visible(b, k)
  }

  ghost predicate SameRead(a: seq<Table>, la: Logs, b: seq<Table>, lb: Logs) {
    forall k :: Read(a, la, k) == Read(b, lb, k)
  }

  lemma {:induction false} LookupOverlay(tables: seq<Table>, k: Key)
    ensures Lookup(tables, k) == if k in Overlay(tables) then Some(Overlay(tables)[k]) else None
  {
    if tables != [] {
      LookupOverlay(tables[1..], k);
    }
  }

  lemma {:induction false} LookupConcat(a: seq<Table>, b: seq<Table>, k: Key)
    ensures Lookup(a + b, k) == if Lookup(a, k).Some? then Lookup(a, k) else Lookup(b, k)
  {
    if a == [] {
      assert a + b == b;
    } else {
      assert (a + b)[1..] == a[1..] + b;
      LookupConcat(a[1..], b, k);
    }
  }

  // A table holding a key that no earlier table holds answers for it.
  lemma {:induction false} LookupAt(tables: seq<Table>, i: nat, k: Key)
    requires i < |tables| && k in tables[i].recs
    requires forall j :: 0 <= j < i ==> k !in tables[j].recs
    ensures Lookup(tables, k) == Some(tables[i].recs[k])
  {
    if i > 0 {
      LookupAt(tables[1..], i - 1, k);
    }
  }

  lemma {:induction false} LookupNone(tables: seq<Table>, k: Key)
    requires forall j :: 0 <= j < |tables| ==> k !in tables[j].recs
    ensures Lookup(tables, k) == None
  {
    if tables != [] {
      LookupNone(tables[1..], k);
    }
  }

  lemma {:induction false} LookupSome(tables: seq<Table>, k: Key) returns (i: nat)
    requires Lookup(tables, k).Some?
    ensures i < |tables| && k in tables[i].recs && Lookup(tables, k) == Some(tables[i].recs[k])
    ensures forall j :: 0 <= j < i ==> k !in tables[j].recs
  {
    if k in tables[0].recs {
      i := 0;
    } else {
      i := LookupSome(tables[1..], k);
      i := i + 1;
      assert forall j :: 0 < j < i ==> tables[j] == tables[1..][j - 1];
    }
  }

  lemma SameVisibleReads(a: seq<Table>, b: seq<Table>, logs: Logs)
    requires SameVisible(a, b)
    ensures SameRead(a, logs, b, logs)
  {
    forall k ensures Read(a, logs, k) == Read(b, logs, k) {
      assert Visible(a, k) == Visible(b, k);
    }
  }

  // Replacing a consecutive run of tables by one table with the run's merged contents,
  // in the run's slot, changes no visible record. Tombstones may go from the merged
  // table when the run reaches the oldest table.
  lemma MergeRunKeepsVisible(pre: seq<Table>, run: seq<Table>, post: seq<Table>, drop: bool, out: Table)
    requires out.recs == Merged(run, drop)
    requires drop ==> post == []
    ensures SameVisible(pre + [out] + post, pre + run + post)
  {
    forall k ensures Visible(pre + [out] + post, k) == Visible(pre + run + post, k) {
      LookupConcat(pre + [out], post, k);
      LookupConcat(pre, [out], k);
      LookupConcat(pre + run, post, k);
      LookupConcat(pre, run, k);
      LookupOverlay(run, k);
      assert [out][1..] == [];
      assert Lookup([out], k) == if k in out.recs then Some(out.recs[k]) else None;
    }
  }

  // Exactly when tombstones may go: the guard above is one way to ensure the right-hand
  // side, which asks that no key whose tombstone is dropped, and which no newer table
  // holds, still has a value in an older table.
  lemma DropIsSoundExactlyWhen(pre: seq<Table>, run: seq<Table>, post: seq<Table>, out: Table)
    requires out.recs == Merged(run, true)
    ensures SameVisible(pre + [out] + post, pre + run + post) <==>
            forall k :: k in Overlay(run) && Overlay(run)[k] == Deleted && Lookup(pre, k) == None ==>
                          Visible(post, k) == None
  {
    forall k
      ensures Visible(pre + [out] + post, k) == Visible(pre + run + post, k) <==>
              (k in Overlay(run) && Overlay(run)[k] == Deleted && Lookup(pre, k) == None ==>
                 Visible(post, k) == None)
    {
      LookupConcat(pre + [out], post, k);
      LookupConcat(pre, [out], k);
      LookupConcat(pre + run, post, k);
      LookupConcat(pre, run, k);
      LookupOverlay(run, k);
      assert [out][1..] == [];
      assert Lookup([out], k) == if k in out.recs then Some(out.recs[k]) else None;
    }
  }
}
