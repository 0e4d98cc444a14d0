/**
 Growing ID lists (midl.c:132-200) and the merge of loose pages into the reclaimed list
 (mdb.c:3003-3023), which sorts a scratch list in the tail of the block it is merged into.
 */
module IdBlock {
  import opened IdList
  import IdSort

  const UM_MAX: nat := 0x1_FFFF

  /** The ids `id + n - 1` down to `id`. */
  function DescRange(id: nat, n: nat): (r: seq<nat>)
    ensures |r| == n && forall x :: 0 <= x < n ==> r[x] == id + n - 1 - x
  {
    seq(n, x requires 0 <= x < n => id + n - 1 - x)
  }

  /** (num + num/4 + (256 + 2)) & -256, less the slot for the length itself. */
  function RoundedLength(num: nat): (r: nat)
    ensures r > num
  {
    var m := num + num / 4 + 258;
    m - m % 256 - 2
  }

  /** n | MDB_IDL_UM_MAX */
  function OrMask(n: nat): (r: nat)
    ensures n <= r <= n + UM_MAX && r % (UM_MAX + 1) == UM_MAX
  {
    n - n % (UM_MAX + 1) + UM_MAX
  }

  class Idl {
    var ids: array<nat>

    ghost predicate Valid()
      reads this, ids
    {
      IsList(ids, 0)
    }

    function AllocLen(): int
      reads this
    {
      ids.Length - 1
    }

    function Contents(): seq<nat>
      reads this, ids
      requires Valid()
    {
      List(ids, 0)
    }

    /** mdb_midl_alloc */
    constructor (num: nat)
      ensures Valid() && Contents() == [] && AllocLen() == num && fresh(ids)
    {
      ids := new nat[num + 1];
      new;
      ids[0] := 0;
    }

    /** realloc: a block of the new length that starts with the old one's list. */
    method Realloc(length: nat)
      requires Valid() && AllocLen() <= length
      modifies this
      ensures Valid() && fresh(ids) && AllocLen() == length
      ensures Contents() == old(Contents())
    {
      var block := new nat[length + 1];
      forall x | 0 <= x < ids.Length { block[x] := ids[x]; }
      ids := block;
    }

    /** mdb_midl_need: make room for num more ids. */
    method Need(num: nat)
      requires Valid() && ids[0] + num < 0xC000_0000
      modifies this
      ensures Valid() && Contents() == old(Contents())
      ensures ids[0] + num <= AllocLen()
      ensures ids == old(ids) || (fresh(ids) && AllocLen() == RoundedLength(ids[0] + num))
      ensures ids == old(ids) <==> ids[0] + num <= old(AllocLen())
    {
      var total := num + ids[0];
      if total > AllocLen() {
        Realloc(RoundedLength(total));
      }
    }

    /** mdb_midl_append */
    method Append(id: nat)
      requires Valid()
      modifies this, ids
      ensures Valid() && Contents() == old(Contents()) + [id]
      ensures ids == old(ids) || fresh(ids)
      ensures if old(ids[0]) < old(AllocLen()) then ids == old(ids) else fresh(ids) && AllocLen() == old(AllocLen()) + UM_MAX
    {
      if ids[0] >= AllocLen() {
        Realloc(AllocLen() + UM_MAX);
      }
      ids[0] := ids[0] + 1;
      ids[ids[0]] := id;
    }

    /** mdb_midl_append_list */
    method AppendList(app: array<nat>)
      requires Valid() && IsList(app, 0) && app != ids
      modifies this, ids
      ensures Valid() && Contents() == old(Contents()) + List(app, 0)
      ensures ids == old(ids) || fresh(ids)
      ensures if old(ids[0]) + app[0] < old(AllocLen()) then ids == old(ids) else fresh(ids) && AllocLen() == old(AllocLen()) + app[0]
    {
      if ids[0] + app[0] >= AllocLen() {
        Realloc(AllocLen() + app[0]);
      }
      CopyAfter(ids, app);
    }

    /** mdb_midl_append_range: the lowest id goes last. */
    method AppendRange(id: nat, n: nat)
      requires Valid()
      modifies this, ids
      ensures Valid() && Contents() == old(Contents()) + DescRange(id, n)
      ensures ids == old(ids) || fresh(ids)
      ensures ids == old(ids) <==> old(ids[0]) + n <= old(AllocLen())
      ensures ids != old(ids) ==> var more := AllocLen() - old(AllocLen()); n <= more <= n + UM_MAX && more % (UM_MAX + 1) == UM_MAX
    {
      hide OrMask;
      var len := ids[0];
      if len + n > AllocLen() {
        Realloc(AllocLen() + OrMask(n));
      }
      ghost var before := Contents();
      ids[0] := len + n;
      FillRange(ids, len, id, n);
      assert Contents() == ids[1..len + 1] + ids[len + 1..len + n + 1];
      assert ids[1..len + 1] == before;
    }

    /**
     Return loose pages to the list (mdb.c:3003-3023): room for twice the loose pages is
     made first, so the scratch list in the tail stays clear of the merged one.
     */
    method MergeLoose(loose: seq<nat>)
      requires Valid() && Descending(Contents())
      requires AllIds(loose) && 2 * |loose| <= IdSort.INT_MAX && ids[0] + 2 * |loose| + 1 < 0xC000_0000
      modifies this, ids
      ensures Valid() && Descending(Contents())
      ensures multiset(Contents()) == multiset(old(Contents())) + multiset(loose)
      ensures ids == old(ids) || fresh(ids)
    {
      Need(2 * |loose| + 1);
      MergeInTail(ids, loose);
    }
  }

  /** Write `loose` to the end of the block, sort it there and merge it into the block's list. */
  method MergeInTail(a: array<nat>, loose: seq<nat>)
    requires IsList(a, 0) && Descending(List(a, 0)) && a[0] + 2 * |loose| + 1 < a.Length
    requires AllIds(loose) && 2 * |loose| <= IdSort.INT_MAX
    modifies a
    ensures IsList(a, 0) && Descending(List(a, 0))
    ensures multiset(List(a, 0)) == multiset(old(List(a, 0))) + multiset(loose)
  {
    var o := a.Length - 1 - |loose|;
    ghost var before := List(a, 0);
    SortInTail(a, o, loose);
    ghost var sorted := List(a, o);
    hide Merge;
    XMerge(a, a, o);
    MergeIsUnion(before, sorted);
    MergeIsDescending(before, sorted);
  }

  method SortInTail(a: array<nat>, o: nat, loose: seq<nat>)
    requires IsList(a, 0) && a[0] < o && o + |loose| < a.Length
    requires AllIds(loose) && 2 * |loose| <= IdSort.INT_MAX
    modifies a
    ensures a[0] == old(a[0]) && List(a, 0) == old(List(a, 0))
    ensures IsList(a, o) && Descending(List(a, o)) && AllIds(List(a, o))
    ensures multiset(List(a, o)) == multiset(loose) && a[o] == |loose|
  {
    hide IdSort.Rearranged;
    ghost var n, before := a[0], List(a, 0);
    WriteList(a, o, loose);
    assert a[0] == n && List(a, 0) == before;
    ghost var s := a[..];
    IdSort.Sort(a, o);
    ScratchSorted(s, a[..], o, loose);
    FrontKept(s, a[..], n, o);
    assert List(a, o) == a[..][o + 1..o + 1 + |loose|];
    assert List(a, 0) == a[..][1..1 + n];
  }

  lemma FrontKept(s: seq<nat>, t: seq<nat>, n: nat, o: nat)
    requires n < o < |s| == |t| && t[..o + 1] == s[..o + 1]
    ensures t[0] == s[0] && t[1..1 + n] == s[1..1 + n]
  {
    assert t[1..1 + n] == t[..o + 1][1..1 + n] && s[1..1 + n] == s[..o + 1][1..1 + n];
    assert t[0] == t[..o + 1][0] && s[0] == s[..o + 1][0];
  }

  lemma ScratchSorted(s: seq<nat>, t: seq<nat>, o: nat, loose: seq<nat>)
    requires o + 1 + |loose| <= |s| == |t| && s[o + 1..o + 1 + |loose|] == loose
    requires IdSort.Rearranged(s, t, o + 1, o + |loose|) && AllIds(loose)
    ensures t[..o + 1] == s[..o + 1] && |t| == |s|
    ensures multiset(t[o + 1..o + 1 + |loose|]) == multiset(loose)
    ensures AllIds(t[o + 1..o + 1 + |loose|])
  {
    var u := t[o + 1..o + 1 + |loose|];
    forall x | 0 <= x < |u| ensures u[x] <= MAX_ID {
      assert u[x] in multiset(u);
      assert u[x] in loose;
    }
  }

  /** Copy a list to the slots after another one and add its length. */
  method CopyAfter(a: array<nat>, app: array<nat>)
    requires IsList(a, 0) && IsList(app, 0) && a != app && a[0] + app[0] < a.Length
    modifies a
    ensures IsList(a, 0) && List(a, 0) == old(List(a, 0)) + List(app, 0)
  {
    ghost var before := List(a, 0);
    var n := a[0];
    forall x | 0 <= x < app[0] { a[n + 1 + x] := app[1 + x]; }
    a[0] := n + app[0];
    assert a[1..n + 1] == before;
    assert a[n + 1..n + 1 + app[0]] == List(app, 0);
  }

  /** Store a list, its length first, at slot `o`. */
  method WriteList(a: array<nat>, o: nat, s: seq<nat>)
    requires o + |s| < a.Length
    modifies a
    ensures IsList(a, o) && List(a, o) == s
    ensures forall x :: 0 <= x < o ==> a[x] == old(a[x])
  {
    forall x | 0 <= x < |s| { a[o + 1 + x] := s[x]; }
    a[o] := |s|;
  }

  /** The loop of mdb_midl_append_range: the slots after `len` take id + n - 1 down to id. */
  method FillRange(a: array<nat>, len: nat, id: nat, n: nat)
    requires len + n < a.Length
    modifies a
    ensures a[len + 1..len + n + 1] == DescRange(id, n)
    ensures forall x :: 0 <= x <= len ==> a[x] == old(a[x])
  {
    var left, next := n, id;
    while left > 0
      invariant 0 <= left <= n && next == id + n - left
      invariant forall x :: len + left < x <= len + n ==> a[x] == id + n + len - x
      invariant forall x :: 0 <= x <= len ==> a[x] == old(a[x])
    {
      a[len + left] := next;
      left, next := left - 1, next + 1;
    }
  }
}
