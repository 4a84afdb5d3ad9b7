// Scans by readers: a scan merges what its snapshot holds, however long ago that was.
module ReaderScans {
  import opened Keys
  import opened Records
  import opened Layers
  import opened Queries
  import opened Store
  import opened StoreInv
  import opened StoreRuns

  // The ranges of the memtables were taken with the snapshot, those of the tables at any
  // later state of the run, through the logs of that state: the result is exactly the pairs
  // in range of the plain map at the snapshot's instant.
  method ScanSnapshot(sources: seq<seq<Record>>, logs: Logs, ghost cfg: Config, ghost es: seq<Event>, ghost rd: Reader,
                      ghost mem: map<Key, Body>, ghost sealed: Option<map<Key, Body>>, ghost start: Key, ghost end: Key)
    returns (out: seq<(Key, Bytes)>)
    requires IsRun(Fresh(cfg), es) && Up(After(Fresh(cfg), es)) && rd in After(Fresh(cfg), es).ram.value.readers
    requires logs == LogsOf(After(Fresh(cfg), es).disk) && SealedOr(sealed) + mem == rd.upper
    requires sources == SourcesOf(LayersOf(mem, sealed, rd.tables), start, end)
    ensures PairsAscend(out)
    ensures forall k, v :: (k, v) in out <==> Within(k, start, end) && k in rd.want && rd.want[k] == v
    ensures exists i: nat :: OpenedAt(Fresh(cfg), es, i, rd)
  {
    hide Next, Enabled, OpenedAt, View, PairsAscend, Within, SourcesOf, LayersOf, SealedOr, Backed, AllSound, LogsOf;
    ghost var i := ReadersSeeTheirInstant(cfg, es, rd);
    var result := Scan(sources, logs, mem, sealed, rd.tables, start, end);
    out := result.value;
  }
}
