/** The byte-wise order of hashes, and the sorted listing of a set of hashes it makes unique. */
module Ordering {
  import opened Bytes

  /** The comparator of the tip sort, from byte `k` on. */
  predicate LessFrom(a: Hash, b: Hash, k: nat)
    requires k <= 32
    decreases 32 - k
  {
    k < 32 && if a[k] != b[k] then a[k] < b[k] else LessFrom(a, b, k + 1)
  }

  predicate Less(a: Hash, b: Hash) {
    LessFrom(a, b, 0)
  }

  /** The comparator as the source runs it, byte by byte. */
  method CompareHashes(a: Hash, b: Hash) returns (less: bool)
    ensures less == Less(a, b)
  {
    for k := 0 to 32
      invariant Less(a, b) == LessFrom(a, b, k)
    {
      if a[k] != b[k] {
        return a[k] < b[k];
      }
    }
    return false;
  }

  lemma {:induction false} LessFromAsymmetric(a: Hash, b: Hash, k: nat)
    requires k <= 32 && LessFrom(a, b, k)
    ensures !LessFrom(b, a, k)
    decreases 32 - k
  {
    if a[k] == b[k] {
      LessFromAsymmetric(a, b, k + 1);
    }
  }

  lemma {:induction false} LessFromTransitive(a: Hash, b: Hash, c: Hash, k: nat)
    requires k <= 32 && LessFrom(a, b, k) && LessFrom(b, c, k)
    ensures LessFrom(a, c, k)
    decreases 32 - k
  {
    if a[k] == b[k] == c[k] {
      LessFromTransitive(a, b, c, k + 1);
    }
  }

  lemma {:induction false} LessFromTotal(a: Hash, b: Hash, k: nat)
    requires k <= 32 && !LessFrom(a, b, k) && !LessFrom(b, a, k)
    ensures a[k..] == b[k..]
    decreases 32 - k
  {
    if k < 32 {
      LessFromTotal(a, b, k + 1);
      assert a[k..] == [a[k]] + a[k + 1..];
      assert b[k..] == [b[k]] + b[k + 1..];
    }
  }

  /** `Less` is a strict total order. */
  lemma LessOrder(a: Hash, b: Hash, c: Hash)
    ensures Less(a, b) ==> !Less(b, a)
    ensures Less(a, b) && Less(b, c) ==> Less(a, c)
    ensures a != b ==> Less(a, b) || Less(b, a)
  {
    if Less(a, b) {
      LessFromAsymmetric(a, b, 0);
      if Less(b, c) {
        LessFromTransitive(a, b, c, 0);
      }
    } else if !Less(b, a) {
      LessFromTotal(a, b, 0);
      assert a[0..] == a && b[0..] == b;
    }
  }

  /** It is the lexicographic order: the smaller hash has the smaller byte where the two first differ. */
  lemma LessIsLexicographic(a: Hash, b: Hash)
    ensures Less(a, b) <==> exists k :: 0 <= k < 32 && a[..k] == b[..k] && a[k] < b[k]
  {
    LessFromFirst(a, b, 0);
  }

  lemma {:induction false} LessFromFirst(a: Hash, b: Hash, k: nat)
    requires k <= 32 && a[..k] == b[..k]
    ensures LessFrom(a, b, k) <==> exists i :: k <= i < 32 && a[..i] == b[..i] && a[i] < b[i]
    ensures forall i :: 0 <= i < k ==> !(a[i] < b[i])
    decreases 32 - k
  {
    assert forall i :: 0 <= i < k ==> a[i] == a[..k][i] == b[..k][i] == b[i];
    if k < 32 {
      if a[k] == b[k] {
        assert a[..k + 1] == a[..k] + [a[k]] == b[..k + 1];
        LessFromFirst(a, b, k + 1);
      } else {
        forall i | k < i < 32 ensures a[..i] != b[..i] {
          assert a[..i][k] != b[..i][k];
        }
      }
    }
  }

  ghost predicate Sorted(s: seq<Hash>) {
    forall i, j :: 0 <= i < j < |s| ==> Less(s[i], s[j])
  }

  ghost function Elements(s: seq<Hash>): set<Hash> {
    set x | x in s
  }

  /** A set has only one strictly sorted listing, whatever order it was collected in. */
  lemma {:induction false} SortedUnique(s: seq<Hash>, t: seq<Hash>)
    requires Sorted(s) && Sorted(t) && Elements(s) == Elements(t)
    ensures s == t
    decreases |s|
  {
    if s == [] {
      assert forall i :: 0 <= i < |t| ==> t[i] in Elements(t);
    } else {
      assert s[0] in Elements(s);
      SameFirst(s, t);
      TailElements(s);
      TailElements(t);
      SortedUnique(s[1..], t[1..]);
      assert s == [s[0]] + s[1..] && t == [t[0]] + t[1..];
    }
  }

  lemma SameFirst(s: seq<Hash>, t: seq<Hash>)
    requires Sorted(s) && Sorted(t) && Elements(s) == Elements(t) && s != []
    ensures t != [] && s[0] == t[0]
  {
    assert s[0] in Elements(t);
    assert t[0] in Elements(s);
    var i :| 0 <= i < |t| && t[i] == s[0];
    var j :| 0 <= j < |s| && s[j] == t[0];
    if i > 0 && j > 0 {
      assert Less(t[0], s[0]) && Less(s[0], t[0]);
      LessOrder(s[0], t[0], s[0]);
    }
  }

  lemma TailElements(s: seq<Hash>)
    requires Sorted(s) && s != []
    ensures Sorted(s[1..]) && Elements(s[1..]) == Elements(s) - {s[0]}
  {
    assert s == [s[0]] + s[1..];
    forall x ensures x in s[1..] <==> x in s && x != s[0] {
      if x in s[1..] {
        var i :| 0 <= i < |s| - 1 && s[1..][i] == x;
        assert Less(s[0], s[i + 1]);
        LessOrder(s[0], x, s[0]);
      }
    }
  }

  /** Inserts `x` in its place. */
  method InsertSorted(s: seq<Hash>, x: Hash) returns (t: seq<Hash>)
    requires Sorted(s) && x !in s
    ensures Sorted(t) && Elements(t) == Elements(s) + {x}
  {
    var i := 0;
    var before := false;
    while i < |s|
      invariant 0 <= i <= |s|
      invariant forall k :: 0 <= k < i ==> Less(s[k], x)
    {
      before := CompareHashes(s[i], x);
      if !before {
        break;
      }
      i := i + 1;
    }
    t := s[..i] + [x] + s[i..];
    forall k | i <= k < |s| ensures Less(x, s[k]) {
      LessOrder(s[i], x, x);
      LessOrder(x, s[i], s[k]);
    }
    assert t[i] == x;
    forall y ensures y in Elements(t) <==> y in Elements(s) || y == x {
      assert s == s[..i] + s[i..];
    }
  }

  /** The listing `sort.Slice` leaves for a slice of distinct hashes. */
  method SortHashes(s: seq<Hash>) returns (t: seq<Hash>)
    requires forall i, j :: 0 <= i < j < |s| ==> s[i] != s[j]
    ensures Sorted(t) && Elements(t) == Elements(s)
  {
    t := [];
    for i := 0 to |s|
      invariant Sorted(t) && Elements(t) == Elements(s[..i])
    {
      assert s[i] !in Elements(s[..i]);
      t := InsertSorted(t, s[i]);
      assert s[..i + 1] == s[..i] + [s[i]];
    }
    assert s[..|s|] == s;
  }
}
