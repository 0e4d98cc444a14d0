/**
 ID lists: the descending page-number lists of midl.c.

 An IDL is an array whose slot 0 holds the number of ids and whose slots 1.. hold the ids.
 The slot before the list (the allocated length) is the array's own length minus one.
 */
module IdList {

  /** (MDB_ID)-1, the largest 64-bit id, used as a delimiter by the merge. */
  const MAX_ID: nat := 0xFFFF_FFFF_FFFF_FFFF

  ghost predicate Descending(s: seq<nat>) {
    forall x, y :: 0 <= x < y < |s| ==> s[x] >= s[y]
  }

  ghost predicate StrictlyDescending(s: seq<nat>) {
    forall x, y :: 0 <= x < y < |s| ==> s[x] > s[y]
  }

  ghost predicate AllIds(s: seq<nat>) {
    forall x :: 0 <= x < |s| ==> s[x] <= MAX_ID
  }

  /** The list stored from slot `o` of `a`: slot o is the count. */
  ghost predicate IsList(a: array<nat>, o: nat)
    reads a
  {
    o < a.Length && o + a[o] < a.Length
  }

  function List(a: array<nat>, o: nat): (s: seq<nat>)
    requires IsList(a, o)
    reads a
  {
    a[o + 1..o + 1 + a[o]]
  }

  /** Binary search in a descending list (mdb_midl_search). */
  method Search(ids: array<nat>, id: nat) returns (cursor: nat)
    requires IsList(ids, 0) && StrictlyDescending(List(ids, 0))
    ensures 1 <= cursor <= ids[0] + 1
    ensures forall x :: 1 <= x < cursor ==> ids[x] > id
    ensures forall x :: cursor <= x <= ids[0] ==> ids[x] <= id
    ensures (cursor <= ids[0] && ids[cursor] == id) <==> id in List(ids, 0)
  {
    ghost var s := List(ids, 0);
    assert forall x :: 1 <= x <= ids[0] ==> ids[x] == s[x - 1];
    var base := 0;
    cursor := 1;
    var val := 0;
    var n := ids[0];
    while 0 < n
      invariant 0 <= base && base + n <= ids[0]
      invariant 1 <= cursor <= ids[0] + 1
      invariant forall x :: 1 <= x <= base ==> ids[x] > id
      invariant forall x :: base + n < x <= ids[0] ==> ids[x] < id
      invariant val == 0 ==> cursor == 1 && base == 0 && n == ids[0]
      invariant val > 0 ==> cursor == base
      invariant val < 0 ==> cursor == base + n + 1
      decreases n
    {
      var pivot := n / 2;
      cursor := base + pivot + 1;
      val := if ids[cursor] < id then -1 else if ids[cursor] > id then 1 else 0;
      assert ids[cursor] == s[cursor - 1];
      if val < 0 {
        n := pivot;
      } else if val > 0 {
        base := cursor;
        n := n - (pivot + 1);
      } else {
        return;
      }
    }
    if val > 0 {
      cursor := cursor + 1;
    }
  }

  // ---- Merge ------------------------------------------------------------------------------

  /** The merge of two descending lists, built from the small end as the in-place merge does. */
  ghost function Merge(a: seq<nat>, b: seq<nat>): (r: seq<nat>)
    ensures |r| == |a| + |b|
    decreases |a| + |b|
  {
    if b == [] then a
    else if a != [] && a[|a| - 1] < b[|b| - 1] then Merge(a[..|a| - 1], b) + [a[|a| - 1]]
    else Merge(a, b[..|b| - 1]) + [b[|b| - 1]]
  }

  lemma {:induction false} MergeIsUnion(a: seq<nat>, b: seq<nat>)
    ensures multiset(Merge(a, b)) == multiset(a) + multiset(b)
    decreases |a| + |b|
  {
    hide Merge;
    MergeLast(a, b);
    if b == [] {
    } else if a != [] && a[|a| - 1] < b[|b| - 1] {
      MergeIsUnion(a[..|a| - 1], b);
      LastCounted(a);
    } else {
      MergeIsUnion(a, b[..|b| - 1]);
      LastCounted(b);
    }
  }

  lemma MergeLast(a: seq<nat>, b: seq<nat>)
    ensures b == [] ==> Merge(a, b) == a
    ensures b != [] && a != [] && a[|a| - 1] < b[|b| - 1] ==> Merge(a, b) == Merge(a[..|a| - 1], b) + [a[|a| - 1]]
    ensures b != [] && (a == [] || a[|a| - 1] >= b[|b| - 1]) ==> Merge(a, b) == Merge(a, b[..|b| - 1]) + [b[|b| - 1]]
  {
  }

  lemma LastCounted(s: seq<nat>)
    requires s != []
    ensures multiset(s) == multiset(s[..|s| - 1]) + multiset{s[|s| - 1]}
  {
    assert s == s[..|s| - 1] + [s[|s| - 1]];
  }

  lemma {:induction false} MergeKeepsBound(a: seq<nat>, b: seq<nat>, v: nat)
    requires forall x :: 0 <= x < |a| ==> a[x] >= v
    requires forall x :: 0 <= x < |b| ==> b[x] >= v
    ensures forall x :: 0 <= x < |a| + |b| ==> Merge(a, b)[x] >= v
    decreases |a| + |b|
  {
    if b == [] {
    } else if a != [] && a[|a| - 1] < b[|b| - 1] {
      MergeKeepsBound(a[..|a| - 1], b, v);
    } else {
      MergeKeepsBound(a, b[..|b| - 1], v);
    }
  }

  lemma {:induction false} MergeIsDescending(a: seq<nat>, b: seq<nat>)
    requires Descending(a) && Descending(b)
    ensures Descending(Merge(a, b))
    decreases |a| + |b|
  {
    if b == [] {
    } else if a != [] && a[|a| - 1] < b[|b| - 1] {
      MergeIsDescending(a[..|a| - 1], b);
      MergeKeepsBound(a[..|a| - 1], b, a[|a| - 1]);
    } else {
      MergeIsDescending(a, b[..|b| - 1]);
      MergeKeepsBound(a, b[..|b| - 1], b[|b| - 1]);
    }
  }

  /** How many elements of `a` are still unread when `k` slots of the merge are still to be written. */
  ghost function Unread(a: seq<nat>, b: seq<nat>, k: nat): (j: nat)
    requires k <= |a| + |b|
    ensures j <= |a| && j <= k <= j + |b|
    decreases |a| + |b| - k
  {
    if k == |a| + |b| then |a|
    else
      var j := Unread(a, b, k + 1);
      var i := k + 1 - j;
      if i == 0 || (j > 0 && a[j - 1] < b[i - 1]) then j - 1 else j
  }

  /** One step of the merge, on prefixes of the two lists. */
  lemma {:induction false} MergeStep(a: seq<nat>, b: seq<nat>, j: nat, i: nat)
    requires j <= |a| && i <= |b| && i + j > 0
    ensures var fromA := i == 0 || (j > 0 && a[j - 1] < b[i - 1]);
            Merge(a[..j], b[..i])[..i + j - 1] ==
            Merge(a[..if fromA then j - 1 else j], b[..if fromA then i else i - 1])
  {
    assert j > 0 ==> a[..j][..j - 1] == a[..j - 1];
    assert i > 0 ==> b[..i][..i - 1] == b[..i - 1];
  }

  lemma {:induction false} UnreadPrefix(a: seq<nat>, b: seq<nat>, k: nat)
    requires k <= |a| + |b|
    ensures var j := Unread(a, b, k); Merge(a[..j], b[..k - j]) == Merge(a, b)[..k]
    decreases |a| + |b| - k
  {
    hide Merge;
    if k == |a| + |b| {
      assert a[..|a|] == a && b[..|b|] == b && Merge(a, b)[..k] == Merge(a, b);
    } else {
      UnreadPrefix(a, b, k + 1);
      var j := Unread(a, b, k + 1);
      MergeStep(a, b, j, k + 1 - j);
      assert Merge(a, b)[..k] == Merge(a, b)[..k + 1][..k];
    }
  }

  /** The smaller of the last elements of two unread prefixes; the one of `b` on a tie. */
  ghost function Pick(a: seq<nat>, b: seq<nat>, j: nat, i: nat): nat
    requires j <= |a| && 0 < i <= |b|
  {
    if j > 0 && a[j - 1] < b[i - 1] then a[j - 1] else b[i - 1]
  }

  /** The element the merge places in position `k - 1`, read off the two unread prefixes. */
  lemma {:induction false} MergeAt(a: seq<nat>, b: seq<nat>, k: nat)
    requires 0 < k <= |a| + |b|
    requires Unread(a, b, k) < k
    ensures Merge(a, b)[k - 1] == Pick(a, b, Unread(a, b, k), k - Unread(a, b, k))
  {
    UnreadPrefix(a, b, k);
    var j := Unread(a, b, k);
    var m := Merge(a[..j], b[..k - j]);
    assert Merge(a, b)[k - 1] == Merge(a, b)[..k][k - 1] == m[k - 1];
  }

  /** The block while `j` ids of `a` are unread and the slots above `k` are already merged. */
  ghost predicate Merging(s: seq<nat>, start: seq<nat>, a: seq<nat>, b: seq<nat>, k: nat) {
    var total := |a| + |b|;
    && total < |s| == |start| && k <= total && s[0] == MAX_ID
    && (forall x :: 1 <= x <= Unread(a, b, k) ==> s[x] == a[x - 1])
    && (forall x :: k < x <= total ==> s[x] == Merge(a, b)[x - 1])
    && (forall x :: total < x < |s| ==> s[x] == start[x])
  }

  lemma MergingStep(s: seq<nat>, start: seq<nat>, a: seq<nat>, b: seq<nat>, k: nat, v: nat)
    requires Merging(s, start, a, b, k) && k > 0
    requires Unread(a, b, k) < k
    requires v == Pick(a, b, Unread(a, b, k), k - Unread(a, b, k))
    ensures Merging(s[k := v], start, a, b, k - 1)
  {
    MergeAt(a, b, k);
  }

  lemma MergingDone(s: seq<nat>, start: seq<nat>, a: seq<nat>, b: seq<nat>, k: nat)
    requires Merging(s, start, a, b, k) && Unread(a, b, k) == k
    ensures s[1..|a| + |b| + 1] == Merge(a, b)
  {
    UnreadPrefix(a, b, k);
    assert b[..0] == [];
    assert forall x :: 0 <= x < k ==> Merge(a, b)[x] == Merge(a, b)[..k][x];
  }

  /** The slots from which the next ids are read. */
  lemma MergingReads(s: seq<nat>, start: seq<nat>, a: seq<nat>, b: seq<nat>, k: nat)
    requires Merging(s, start, a, b, k)
    ensures |a| + |b| < |s| && k <= |a| + |b| && s[0] == MAX_ID
    ensures Unread(a, b, k) > 0 ==> s[Unread(a, b, k)] == a[Unread(a, b, k) - 1]
  {
  }

  lemma UnreadBelow(a: seq<nat>, b: seq<nat>, k: nat)
    requires 0 < k <= |a| + |b|
    ensures var j, i := Unread(a, b, k), k - Unread(a, b, k);
            Unread(a, b, k - 1) == if i == 0 || (j > 0 && a[j - 1] < b[i - 1]) then j - 1 else j
  {
  }

  /** Place one id: move up every id of the first list that is below it, then store it. */
  method Place(idl: array<nat>, mergeId: nat, j0: nat, k0: nat, ghost start: seq<nat>,
               ghost a: seq<nat>, ghost b: seq<nat>)
    returns (j: nat, k: nat)
    requires Merging(idl[..], start, a, b, k0) && j0 == Unread(a, b, k0) < k0
    requires mergeId == b[k0 - j0 - 1] <= MAX_ID
    modifies idl
    ensures Merging(idl[..], start, a, b, k) && j == Unread(a, b, k)
    ensures k - j == k0 - j0 - 1
  {
    hide Merging, Unread;
    j, k := j0, k0;
    MergingReads(idl[..], start, a, b, k);
    var oldId := idl[j];
    while oldId < mergeId
      invariant j < k && k - j == k0 - j0
      invariant Merging(idl[..], start, a, b, k)
      invariant j == Unread(a, b, k) && oldId == idl[j]
      decreases j
    {
      MergingReads(idl[..], start, a, b, k);
      UnreadBelow(a, b, k);
      MergingStep(idl[..], start, a, b, k, oldId);
      idl[k] := oldId;
      k, j := k - 1, j - 1;
      MergingReads(idl[..], start, a, b, k);
      oldId := idl[j];
    }
    MergingReads(idl[..], start, a, b, k);
    UnreadBelow(a, b, k);
    MergingStep(idl[..], start, a, b, k, mergeId);
    idl[k] := mergeId;
    k := k - 1;
  }

  /**
   mdb_midl_xmerge: merge the list at slot `o` of `merge` into `idl`, in place and from the
   small end, with slot 0 of `idl` serving as a delimiter. The second list may sit in the
   tail of the first one's own block, as long as it starts above the merged length.
   */
  method XMerge(idl: array<nat>, merge: array<nat>, o: nat)
    requires IsList(idl, 0) && IsList(merge, o)
    requires idl[0] + merge[o] < idl.Length
    requires AllIds(List(merge, o))
    requires merge == idl ==> idl[0] + merge[o] < o
    modifies idl
    ensures idl[0] == old(idl[0] + merge[o])
    ensures List(idl, 0) == Merge(old(List(idl, 0)), old(List(merge, o)))
    ensures forall x :: idl[0] < x < idl.Length ==> idl[x] == old(idl[x])
  {
    ghost var A, B := List(idl, 0), List(merge, o);
    ghost var start := idl[..];
    var i: nat, j: nat := merge[o], idl[0];
    var k: nat := i + j;
    var total := k;
    idl[0] := MAX_ID;
    while i > 0
      invariant i <= |B| && k == i + j
      invariant Merging(idl[..], start, A, B, k) && j == Unread(A, B, k)
      decreases i
    {
      assert merge[o + i] == B[i - 1] by {
        assert merge == idl ==> merge[o + i] == idl[..][o + i] == start[o + i];
      }
      j, k := Place(idl, merge[o + i], j, k, start, A, B);
      i := i - 1;
    }
    MergingDone(idl[..], start, A, B, k);
    idl[0] := total;
    assert idl[..][1..total + 1] == idl[1..total + 1];
  }
}
