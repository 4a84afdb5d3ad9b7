// Byte strings and the key order of the store: std::string compares bytes as
// unsigned values, lexicographically, with a proper prefix before its extensions.
module Keys {

  type byte = x: int | 0 <= x < 256
  type Bytes = seq<byte>
  type Key = Bytes

  predicate Less(a: Key, b: Key) {
    |b| > 0 && (|a| == 0 || a[0] < b[0] || (a[0] == b[0] && Less(a[1..], b[1..])))
  }

  predicate AtMost(a: Key, b: Key) {
    !Less(b, a)
  }

  lemma {:induction false} LessTransitive(a: Key, b: Key, c: Key)
    requires Less(a, b) && Less(b, c)
    ensures Less(a, c)
  {
    if |a| > 0 && a[0] == b[0] && b[0] == c[0] {
      LessTransitive(a[1..], b[1..], c[1..]);
    }
  }

  lemma {:induction false} LessTotal(a: Key, b: Key)
    ensures Less(a, b) || Less(b, a) || a == b
  {
    if |a| > 0 && |b| > 0 && a[0] == b[0] {
      LessTotal(a[1..], b[1..]);
      assert a == [a[0]] + a[1..] && b == [b[0]] + b[1..];
    }
  }

  lemma {:induction false} LessIrreflexive(a: Key)
    ensures !Less(a, a)
  {
    if |a| > 0 {
      LessIrreflexive(a[1..]);
    }
  }

  // The strings agree before position i, and there a ends or holds the smaller byte.
  ghost predicate SmallerAt(a: Key, b: Key, i: nat) {
    i <= |a| && i < |b| && a[..i] == b[..i] && (i == |a| || a[i] < b[i])
  }

  // The order is that of the first difference: unsigned bytes, a proper prefix first.
  lemma {:induction false} LessAtFirstDifference(a: Key, b: Key)
    ensures Less(a, b) <==> exists i: nat :: SmallerAt(a, b, i)
  {
    forall i: nat | SmallerAt(a, b, i) && i > 0 ensures a[0] == b[0] {
      assert a[0] == a[..i][0] && b[0] == b[..i][0];
    }
    if |a| == 0 || |b| == 0 || a[0] != b[0] {
      assert Less(a, b) <==> SmallerAt(a, b, 0);
    } else {
      LessAtFirstDifference(a[1..], b[1..]);
      forall i: nat | SmallerAt(a[1..], b[1..], i) ensures SmallerAt(a, b, i + 1) {
        assert a[..i + 1] == [a[0]] + a[1..][..i] && b[..i + 1] == [b[0]] + b[1..][..i];
      }
      forall i: nat | SmallerAt(a, b, i) ensures i > 0 && SmallerAt(a[1..], b[1..], i - 1) {
        assert a[1..][..i - 1] == a[..i][1..] && b[1..][..i - 1] == b[..i][1..];
      }
    }
  }

  // The three laws at once, for proofs that hide the recursive definition of Less.
  lemma KeyOrder()
    ensures forall a: Key :: !Less(a, a)
    ensures forall a: Key, b: Key :: Less(a, b) || Less(b, a) || a == b
    ensures forall a: Key, b: Key, c: Key :: Less(a, b) && Less(b, c) ==> Less(a, c)
  {
    forall a: Key ensures !Less(a, a) {
      LessIrreflexive(a);
    }
    forall a: Key, b: Key ensures Less(a, b) || Less(b, a) || a == b {
      LessTotal(a, b);
    }
    forall a: Key, b: Key, c: Key | Less(a, b) && Less(b, c) ensures Less(a, c) {
      LessTransitive(a, b, c);
    }
  }

  ghost predicate IsLeast(k: Key, s: set<Key>) {
    k in s && forall j :: j in s ==> AtMost(k, j)
  }

  ghost predicate IsGreatest(k: Key, s: set<Key>) {
    k in s && forall j :: j in s ==> AtMost(j, k)
  }

  lemma {:induction false} LeastExists(s: set<Key>)
    requires s != {}
    ensures exists k :: IsLeast(k, s)
  {
    hide Less;
    KeyOrder();
    var x :| x in s;
    if s - {x} == {} {
      assert s == {x};
      assert IsLeast(x, s);
    } else {
      LeastExists(s - {x});
      var y :| IsLeast(y, s - {x});
      var m := if Less(x, y) then x else y;
      assert forall j :: j in s ==> j == x || j in s - {x};
      assert IsLeast(m, s);
    }
  }

  lemma {:induction false} GreatestExists(s: set<Key>)
    requires s != {}
    ensures exists k :: IsGreatest(k, s)
  {
    hide Less;
    KeyOrder();
    var x :| x in s;
    if s - {x} == {} {
      assert s == {x};
      assert IsGreatest(x, s);
    } else {
      GreatestExists(s - {x});
      var y :| IsGreatest(y, s - {x});
      var m := if Less(y, x) then x else y;
      assert forall j :: j in s ==> j == x || j in s - {x};
      assert IsGreatest(m, s);
    }
  }

  ghost function Least(s: set<Key>): (k: Key)
    requires s != {}
    ensures IsLeast(k, s)
  {
    LeastExists(s);
    var k :| IsLeast(k, s);
    k
  }

  ghost function Greatest(s: set<Key>): (k: Key)
    requires s != {}
    ensures IsGreatest(k, s)
  {
    GreatestExists(s);
    var k :| IsGreatest(k, s);
    k
  }
}
