/**
 The default order of keys (mdb_cmp_memn), and why a key can be represented by its rank: among the
 keys that occur, comparing ranks is comparing keys.
 */
module Keys {
  type Byte = x: int | 0 <= x < 256

  type Bytes = seq<Byte>

  /** memcmp of the common length, then the lengths; negative, zero or positive. */
  function Compare(a: Bytes, b: Bytes): int {
    if a == [] || b == [] then |a| - |b|
    else if a[0] != b[0] then a[0] as int - b[0] as int
    else Compare(a[1..], b[1..])
  }

  /** The comparison of mdb_cmp_memn: the loop of memcmp, and the difference of the lengths if it finds none. */
  method CompareMemn(a: Bytes, b: Bytes) returns (r: int)
    ensures r < 0 <==> Compare(a, b) < 0
    ensures r == 0 <==> Compare(a, b) == 0
  {
    var lenDiff := |a| - |b|;
    var len := if lenDiff > 0 then |b| else |a|;
    var i := 0;
    while i < len
      invariant 0 <= i <= len && Compare(a, b) == Compare(a[i..], b[i..])
    {
      if a[i] != b[i] { return a[i] as int - b[i] as int; }
      assert a[i..][1..] == a[i + 1..] && b[i..][1..] == b[i + 1..];
      i := i + 1;
    }
    r := lenDiff;
  }

  /** Keys compare equal only if they are equal, and comparing the other way round changes the sign. */
  lemma {:induction false} Antisymmetric(a: Bytes, b: Bytes)
    ensures Compare(a, b) == 0 <==> a == b
    ensures Compare(a, b) == -Compare(b, a)
  {
    if a != [] && b != [] && a[0] == b[0] {
      Antisymmetric(a[1..], b[1..]);
      assert a == [a[0]] + a[1..] && b == [b[0]] + b[1..];
    }
  }

  /** The first byte that differs decides. */
  lemma {:induction false} FirstDifference(a: Bytes, b: Bytes, i: nat)
    requires i < |a| && i < |b| && a[..i] == b[..i] && a[i] != b[i]
    ensures Compare(a, b) < 0 <==> a[i] < b[i]
  {
    if i > 0 {
      assert a[0] == a[..i][0] == b[..i][0];
      assert a[1..][..i - 1] == a[..i][1..] && b[1..][..i - 1] == b[..i][1..];
      FirstDifference(a[1..], b[1..], i - 1);
    }
  }

  /** Without a difference the shorter key is the smaller one. */
  lemma {:induction false} PrefixIsSmaller(a: Bytes, b: Bytes)
    requires a < b
    ensures Compare(a, b) < 0
  {
    if a != [] {
      assert a[0] == b[0] && a[1..] < b[1..];
      PrefixIsSmaller(a[1..], b[1..]);
    }
  }

  lemma {:induction false} Transitive(a: Bytes, b: Bytes, c: Bytes)
    requires Compare(a, b) < 0 && Compare(b, c) < 0
    ensures Compare(a, c) < 0
  {
    if a != [] && b != [] && c != [] && a[0] == b[0] == c[0] { Transitive(a[1..], b[1..], c[1..]); }
  }

  /** How many of the keys lie below a key. */
  ghost function Rank(keys: set<Bytes>, k: Bytes): int {
    |set x | x in keys && Compare(x, k) < 0|
  }

  /** Among any keys, comparing ranks is comparing keys. */
  lemma {:induction false} RankIsOrder(keys: set<Bytes>, a: Bytes, b: Bytes)
    requires a in keys && b in keys
    ensures Compare(a, b) < 0 <==> Rank(keys, a) < Rank(keys, b)
    ensures a == b <==> Rank(keys, a) == Rank(keys, b)
  {
    Antisymmetric(a, b);
    if Compare(a, b) < 0 {
      RankBelow(keys, a, b);
    } else if Compare(a, b) > 0 {
      RankBelow(keys, b, a);
    }
  }

  lemma {:induction false} RankBelow(keys: set<Bytes>, a: Bytes, b: Bytes)
    requires a in keys && b in keys && Compare(a, b) < 0
    ensures Rank(keys, a) < Rank(keys, b)
  {
    var s, t := set x | x in keys && Compare(x, a) < 0, set x | x in keys && Compare(x, b) < 0;
    forall x | x in s ensures x in t { Transitive(x, a, b); }
    Antisymmetric(a, a);
    assert a in t && a !in s;
    Smaller(s, t, a);
  }

  lemma Smaller(s: set<Bytes>, t: set<Bytes>, a: Bytes)
    requires s <= t && a in t && a !in s
    ensures |s| < |t|
  {
    assert |t| == |s| + |t - s| by { assert t == s + (t - s); }
    assert a in t - s;
  }
}
