// Records, and the two readings of a list of them: as a map in which later entries win,
// as when replaying a log, and as the ascending listing of a map, as in an SSTable.
module Records {
  import opened Keys

  datatype Option<+T> = None | Some(value: T)

  lemma Assoc<T>(a: seq<T>, b: seq<T>, c: seq<T>)
    ensures a + (b + c) == (a + b) + c
  {
  }

  lemma Parts<T>(a: seq<T>, b: seq<T>)
    ensures (a + b)[..|a|] == a && (a + b)[|a|..] == b
  {
  }

  // A slice of a suffix is a slice of the whole.
  lemma Shifted<T>(s: seq<T>, p: nat, i: nat, j: nat)
    requires p <= |s| && i <= j <= |s| - p
    ensures s[p..][i..j] == s[p + i..p + j]
  {
  }

  lemma Nothing<T>(a: seq<T>)
    ensures a + [] == a && [] + a == a
  {
  }

  // Where a separated value's payload lies in the value log.
  datatype ValuePtr = ValuePtr(gen: nat, offset: nat, len: nat)

  datatype Body = Inline(value: Bytes) | Separated(ptr: ValuePtr) | Deleted

  datatype Record = Record(key: Key, body: Body)

  ghost predicate Ascending(s: seq<Record>) {
    forall i, j :: 0 <= i < j < |s| ==> Less(s[i].key, s[j].key)
  }

  function ToMap(s: seq<Record>): map<Key, Body> {
    if s == [] then map[] else ToMap(s[..|s| - 1])[s[|s| - 1].key := s[|s| - 1].body]
  }

  lemma {:induction false} ToMapAppend(a: seq<Record>, b: seq<Record>)
    ensures ToMap(a + b) == ToMap(a) + ToMap(b)
  {
    if b == [] {
      assert a + b == a;
    } else {
      assert (a + b)[..|a + b| - 1] == a + b[..|b| - 1];
      ToMapAppend(a, b[..|b| - 1]);
    }
  }

  lemma {:induction false} ToMapKeys(s: seq<Record>, k: Key)
    ensures k in ToMap(s) <==> exists i :: 0 <= i < |s| && s[i].key == k
  {
    if s != [] {
      var t := s[..|s| - 1];
      ToMapKeys(t, k);
      assert forall i :: 0 <= i < |t| ==> t[i] == s[i];
      if k in ToMap(t) {
        var i :| 0 <= i < |t| && t[i].key == k;
        assert s[i].key == k;
      }
    }
  }

  // In an ascending list every record is the one its key maps to.
  lemma {:induction false} ToMapAt(s: seq<Record>, i: nat)
    requires Ascending(s) && i < |s|
    ensures s[i].key in ToMap(s) && ToMap(s)[s[i].key] == s[i].body
  {
    hide Less;
    KeyOrder();
    if i < |s| - 1 {
      ToMapAt(s[..|s| - 1], i);
      assert Less(s[i].key, s[|s| - 1].key);
    }
  }

  // An ascending list holds no record below its first key.
  lemma HeadIsLeast(s: seq<Record>)
    requires Ascending(s) && s != []
    ensures IsLeast(s[0].key, ToMap(s).Keys)
    ensures s[0].key !in ToMap(s[1..])
  {
    hide Less, ToMap;
    KeyOrder();
    ToMapKeys(s, s[0].key);
    ToMapKeys(s[1..], s[0].key);
    assert forall i :: 0 < i < |s| ==> Less(s[0].key, s[i].key);
    forall j | j in ToMap(s).Keys ensures AtMost(s[0].key, j) {
      ToMapKeys(s, j);
    }
  }

  lemma ToMapCons(s: seq<Record>)
    requires Ascending(s) && s != []
    ensures ToMap(s) == ToMap(s[1..])[s[0].key := s[0].body]
    ensures IsLeast(s[0].key, ToMap(s).Keys)
    ensures s[0].key !in ToMap(s[1..])
  {
    hide Less, Ascending;
    assert ToMap([s[0]]) == map[s[0].key := s[0].body] by {
      assert [s[0]][..0] == [];
    }
    hide ToMap;
    assert s == [s[0]] + s[1..];
    ToMapAppend([s[0]], s[1..]);
    HeadIsLeast(s);
  }

  // The ascending listing of a map.
  ghost function Listing(m: map<Key, Body>): seq<Record>
    decreases |m|
  {
    if m == map[] then []
    else
      var k := Least(m.Keys);
      assert |m - {k}| < |m| by { MapShrinks(m, k); }
      [Record(k, m[k])] + Listing(m - {k})
  }

  lemma MapShrinks<V>(m: map<Key, V>, k: Key)
    requires k in m
    ensures |m - {k}| == |m| - 1
  {
    assert (m - {k}).Keys == m.Keys - {k};
    assert |m| == |m.Keys| && |m - {k}| == |(m - {k}).Keys|;
  }

  // A record below every record of an ascending list may be put in front of it.
  lemma {:induction false} AscendingCons(r: Record, s: seq<Record>)
    requires Ascending(s)
    requires forall k :: k in ToMap(s) ==> Less(r.key, k)
    ensures Ascending([r] + s)
    ensures r.key !in ToMap(s) && ToMap([r] + s) == ToMap(s)[r.key := r.body]
  {
    hide Less;
    KeyOrder();
    var t := [r] + s;
    forall i, j | 0 <= i < j < |t| ensures Less(t[i].key, t[j].key) {
      ToMapAt(s, j - 1);
      assert t[j] == s[j - 1];
      assert i > 0 ==> t[i] == s[i - 1];
    }
    ToMapAppend([r], s);
    assert [r][..0] == [];
    assert ToMap([r]) == map[r.key := r.body];
  }

  lemma {:induction false} ListingOf(m: map<Key, Body>)
    ensures Ascending(Listing(m))
    ensures ToMap(Listing(m)) == m
    ensures |Listing(m)| == |m|
    decreases |m|
  {
    hide Less;
    KeyOrder();
    if m != map[] {
      var k := Least(m.Keys);
      MapShrinks(m, k);
      ListingOf(m - {k});
      AscendingCons(Record(k, m[k]), Listing(m - {k}));
    }
  }

  // An ascending list is determined by the map it denotes.
  lemma {:induction false} ListingUnique(s: seq<Record>)
    requires Ascending(s)
    ensures s == Listing(ToMap(s))
    decreases |s|
  {
    hide Less;
    KeyOrder();
    if s != [] {
      ToMapCons(s);
      var m := ToMap(s);
      assert Least(m.Keys) == s[0].key;
      assert m - {s[0].key} == ToMap(s[1..]);
      ListingUnique(s[1..]);
      assert s == [s[0]] + s[1..];
    } else {
      assert ToMap(s) == map[];
    }
  }
}
