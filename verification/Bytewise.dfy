/** Byte strings under the order that SQLite's BINARY collation and Python's `sorted` use. */
module Bytewise {

  newtype byte = x: int | 0 <= x < 256

  type Bytes = seq<byte>

  /** `a` sorts strictly before `b`. */
  predicate Less(a: Bytes, b: Bytes) {
    if b == [] then false
    else if a == [] then true
    else if a[0] != b[0] then a[0] < b[0]
    else Less(a[1..], b[1..])
  }

  lemma {:induction false} LessIrreflexive(a: Bytes)
    ensures !Less(a, a)
  {
    if a != [] {
      LessIrreflexive(a[1..]);
    }
  }

  lemma {:induction false} LessTransitive(a: Bytes, b: Bytes, c: Bytes)
    requires Less(a, b) && Less(b, c)
    ensures Less(a, c)
  {
    if a != [] && a[0] == b[0] == c[0] {
      LessTransitive(a[1..], b[1..], c[1..]);
    }
  }

  lemma {:induction false} LessTotal(a: Bytes, b: Bytes)
    ensures Less(a, b) || Less(b, a) || a == b
  {
    if a != [] && b != [] && a[0] == b[0] {
      LessTotal(a[1..], b[1..]);
      assert a == [a[0]] + a[1..] && b == [b[0]] + b[1..];
    }
  }

  /** Either string may end first; otherwise the first byte that differs decides. */
  ghost predicate DiffersAt(a: Bytes, b: Bytes, k: nat) {
    k < |b| && k <= |a| && a[..k] == b[..k] && (k == |a| || a[k] < b[k])
  }

  lemma {:induction false} LessMeans(a: Bytes, b: Bytes)
    ensures Less(a, b) <==> exists k: nat :: DiffersAt(a, b, k)
  {
    if b != [] && a != [] && a[0] == b[0] {
      LessMeans(a[1..], b[1..]);
      if k: nat :| DiffersAt(a[1..], b[1..], k) { LaterDiffers(a, b, k); }
      if k: nat :| DiffersAt(a, b, k) {
        assert k > 0;
        LaterDiffers(a, b, k - 1);
      }
    } else if b != [] {
      assert a[..0] == b[..0];
      assert Less(a, b) ==> DiffersAt(a, b, 0);
      forall k: nat | DiffersAt(a, b, k) ensures k == 0 { if k > 0 { SameHead(a, b, k); } }
    }
  }

  lemma SameHead(a: Bytes, b: Bytes, k: nat)
    requires DiffersAt(a, b, k) && k > 0
    ensures a != [] && b != [] && a[0] == b[0]
  {
    assert a[..k][0] == a[0] && b[..k][0] == b[0];
  }

  lemma LaterDiffers(a: Bytes, b: Bytes, k: nat)
    requires a != [] && b != [] && a[0] == b[0]
    ensures DiffersAt(a, b, k + 1) <==> DiffersAt(a[1..], b[1..], k)
  {
    if k < |b| - 1 && k <= |a| - 1 {
      assert a[..k + 1] == [a[0]] + a[1..][..k] && b[..k + 1] == [b[0]] + b[1..][..k];
      assert a[1..][..k] == a[..k + 1][1..] && b[1..][..k] == b[..k + 1][1..];
    }
  }

  predicate IsLeast(k: Bytes, keys: set<Bytes>) {
    k in keys && forall o :: o in keys ==> o == k || Less(k, o)
  }

  /** A nonempty set of byte strings has a least element. */
  lemma {:induction false} LeastExists(keys: set<Bytes>) returns (k: Bytes)
    requires keys != {}
    ensures IsLeast(k, keys)
  {
    k :| k in keys;
    var rest := keys - {k};
    if rest == {} {
      assert keys == {k};
    } else {
      var r := LeastExists(rest);
      LessTotal(k, r);
      if Less(k, r) {
        forall o | o in keys ensures o == k || Less(k, o) {
          if o != k && o != r { LessTransitive(k, r, o); }
        }
      } else {
        k := r;
      }
    }
  }

  lemma LeastUnique(k: Bytes, m: Bytes, keys: set<Bytes>)
    requires IsLeast(k, keys) && IsLeast(m, keys)
    ensures k == m
  {
    if k != m {
      LessTransitive(k, m, k);
      LessIrreflexive(k);
    }
  }

  /** The least of a nonempty set. */
  function Least(keys: set<Bytes>): (k: Bytes)
    requires keys != {}
    ensures IsLeast(k, keys)
  {
    assert exists k :: IsLeast(k, keys) by { var l := LeastExists(keys); }
    assert forall k, m :: IsLeast(k, keys) && IsLeast(m, keys) ==> k == m by {
      forall k, m | IsLeast(k, keys) && IsLeast(m, keys) ensures k == m { LeastUnique(k, m, keys); }
    }
    var k :| IsLeast(k, keys);
    k
  }

  ghost predicate StrictlySorted(s: seq<Bytes>) {
    forall i, j :: 0 <= i < j < |s| ==> Less(s[i], s[j])
  }

  /** `sorted(keys)`: every key once, in increasing order. */
  function Sorted(keys: set<Bytes>): (s: seq<Bytes>)
    ensures StrictlySorted(s)
    ensures forall k :: k in s <==> k in keys
    ensures |s| == |keys|
  {
    if keys == {} then []
    else
      var k := Least(keys);
      [k] + Sorted(keys - {k})
  }

  lemma SortedTail(keys: set<Bytes>, s: seq<Bytes>)
    requires s != [] && StrictlySorted(s) && forall k :: k in s <==> k in keys
    ensures StrictlySorted(s[1..]) && forall k :: k in s[1..] <==> k in keys - {s[0]}
  {
    forall n | 0 <= n < |s[1..]| ensures s[1..][n] != s[0] {
      assert Less(s[0], s[n + 1]);
      LessIrreflexive(s[0]);
    }
    assert s == [s[0]] + s[1..];
  }

  lemma FirstIsLeast(keys: set<Bytes>, s: seq<Bytes>)
    requires s != [] && StrictlySorted(s) && forall k :: k in s <==> k in keys
    ensures IsLeast(s[0], keys)
  {
    assert s[0] in s;
    forall k | k in keys ensures k == s[0] || Less(s[0], k) {
      var n :| 0 <= n < |s| && s[n] == k;
    }
  }

  /** Whatever order a dictionary was filled in, its sorted enumeration is the same. */
  lemma {:induction false} SortedIsUnique(keys: set<Bytes>, s: seq<Bytes>)
    requires StrictlySorted(s) && forall k :: k in s <==> k in keys
    ensures s == Sorted(keys)
    decreases |s|
  {
    if s == [] {
      assert forall k :: k !in keys;
    } else {
      FirstIsLeast(keys, s);
      LeastUnique(s[0], Least(keys), keys);
      SortedTail(keys, s);
      SortedIsUnique(keys - {s[0]}, s[1..]);
      assert Sorted(keys) == [s[0]] + Sorted(keys - {s[0]});
    }
  }
}
