/**
 Dirty lists: the sorted lists of (page number, page) pairs of midl.c:282-346, the removal of a
 page that mdb_ovpage_free does (mdb.c:5218-5235), and the in-place merge of a committing nested
 transaction's list into its parent's (mdb.c:3291-3321).
 */
module DirtyList {
  /** MDB_ID2: a page number and the address of the buffer the page has in memory. */
  datatype Id2 = Id2(mid: nat, mptr: int)

  const UM_MAX: nat := 0x1_FFFF

  ghost predicate Ascending(s: seq<Id2>) {
    forall x, y :: 0 <= x < y < |s| ==> s[x].mid < s[y].mid
  }

  /** Page numbers 0 and 1 are meta pages. */
  ghost predicate Positive(s: seq<Id2>) {
    forall x :: 0 <= x < |s| ==> s[x].mid > 0
  }

  /** Slot 0 holds the length. */
  ghost predicate IsList(a: array<Id2>)
    reads a
  {
    a.Length > 0 && a[0].mid < a.Length
  }

  function Items(a: array<Id2>): seq<Id2>
    requires IsList(a)
    reads a
  {
    a[1..a[0].mid + 1]
  }

  /** How many entries from the front are below a page number. */
  ghost function Below(s: seq<Id2>, id: nat): (n: nat)
    ensures n <= |s|
    ensures n > 0 ==> s[n - 1].mid < id
    ensures n < |s| ==> id <= s[n].mid
  {
    if s == [] then 0 else if s[|s| - 1].mid < id then |s| else Below(s[..|s| - 1], id)
  }

  lemma Ordered(s: seq<Id2>)
    requires Ascending(s)
    ensures forall x, y :: 0 <= x <= y < |s| ==> s[x].mid <= s[y].mid
  {
  }

  lemma {:induction false} BelowIs(s: seq<Id2>, id: nat, n: nat)
    requires Ascending(s) && n <= |s|
    requires n > 0 ==> s[n - 1].mid < id
    requires n < |s| ==> id <= s[n].mid
    ensures Below(s, id) == n
  {
    Ordered(s);
  }

  /** mdb_mid2l_search: the first position whose page number is not below `id`. */
  method Search(ids: array<Id2>, id: nat) returns (cursor: nat)
    requires IsList(ids) && Ascending(Items(ids))
    ensures cursor == Below(Items(ids), id) + 1
  {
    var base: nat, n: nat := 0, ids[0].mid;
    cursor := 1;
    var val := 0;
    ghost var s := Items(ids);
    while 0 < n
      invariant base + n <= |s|
      invariant base > 0 ==> s[base - 1].mid < id
      invariant base + n < |s| ==> id < s[base + n].mid
      invariant val == 0 ==> cursor == 1 && base == 0 && n == |s|
      invariant val > 0 ==> cursor == base
      invariant val < 0 ==> cursor == base + n + 1
    {
      var pivot := n / 2;
      cursor := base + pivot + 1;
      val := if id < ids[cursor].mid then -1 else if id > ids[cursor].mid then 1 else 0;
      assert ids[cursor] == s[cursor - 1];
      if val < 0 {
        n := pivot;
      } else if val > 0 {
        base, n := cursor, n - (pivot + 1);
      } else {
        BelowIs(s, id, cursor - 1);
        return;
      }
    }
    if val > 0 { cursor := cursor + 1; }
    BelowIs(s, id, base);
  }

  /** The list with a new entry in its place. */
  ghost function Inserted(s: seq<Id2>, id: Id2): seq<Id2> {
    s[..Below(s, id.mid)] + [id] + s[Below(s, id.mid)..]
  }

  ghost predicate Has(s: seq<Id2>, mid: nat) {
    exists x :: 0 <= x < |s| && s[x].mid == mid
  }

  lemma {:induction false} HasAtBelow(s: seq<Id2>, mid: nat)
    requires Ascending(s)
    ensures Has(s, mid) <==> Below(s, mid) < |s| && s[Below(s, mid)].mid == mid
  {
    if x :| 0 <= x < |s| && s[x].mid == mid {
      Ordered(s);
    }
  }

  /** mdb_mid2l_insert: 0, or -1 for a duplicate, or -2 when the list is full. */
  method Insert(ids: array<Id2>, id: Id2) returns (rc: int)
    requires IsList(ids) && Ascending(Items(ids)) && ids.Length > UM_MAX
    modifies ids
    ensures IsList(ids)
    ensures rc == if Has(old(Items(ids)), id.mid) then -1 else if old(ids[0].mid) >= UM_MAX then -2 else 0
    ensures Items(ids) == if rc == 0 then Inserted(old(Items(ids)), id) else old(Items(ids))
  {
    hide Below, Has, Inserted, Shifted, Ascending;
    ghost var s := Items(ids);
    var x := Search(ids, id.mid);
    HasAtBelow(s, id.mid);
    assert x <= |s| ==> ids[x] == s[x - 1];
    if x <= ids[0].mid && ids[x].mid == id.mid { return -1; }
    if ids[0].mid >= UM_MAX { return -2; }
    ids[0] := ids[0].(mid := ids[0].mid + 1);
    ShiftStarts(ids[..], s);
    Shift(ids, x, s);
    ghost var t := ids[..];
    ids[x] := id;
    ShiftedIn(t, s, x, id);
    assert ids[..] == t[x := id] && Items(ids) == ids[..][1..ids[0].mid + 1];
    return 0;
  }

  lemma ShiftStarts(t: seq<Id2>, s: seq<Id2>)
    requires |s| + 1 < |t| && t[0].mid == |s| + 1 && t[1..|s| + 1] == s
    ensures Shifted(t, s, |s| + 1)
  {
    assert forall j :: 1 <= j <= |s| ==> t[j] == t[1..|s| + 1][j - 1];
  }

  /** Block `t` holds the entries of `s`, those from position i on one slot up. */
  ghost predicate Shifted(t: seq<Id2>, s: seq<Id2>, i: nat) {
    && 0 < i <= |s| + 1 < |t| && t[0].mid == |s| + 1
    && (forall j :: 1 <= j < i ==> t[j] == s[j - 1])
    && (forall j :: i < j <= |s| + 1 ==> t[j] == s[j - 2])
  }

  /** The loop of mdb_mid2l_insert that makes room at position x. */
  method Shift(ids: array<Id2>, x: nat, ghost s: seq<Id2>)
    requires 0 < x <= |s| + 1 && Shifted(ids[..], s, |s| + 1)
    modifies ids
    ensures Shifted(ids[..], s, x)
  {
    var i := ids[0].mid;
    while i > x
      invariant x <= i <= |s| + 1 && Shifted(ids[..], s, i)
    {
      ids[i] := ids[i - 1];
      i := i - 1;
    }
  }

  lemma ShiftedIn(t: seq<Id2>, s: seq<Id2>, x: nat, id: Id2)
    requires Shifted(t, s, x) && Below(s, id.mid) == x - 1
    ensures t[0].mid == |s| + 1 < |t| && 0 < x <= |s| + 1
    ensures t[x := id][1..|s| + 2] == Inserted(s, id)
  {
    hide Below, Shifted;
    ShiftedParts(t, s, x);
    ReplacedSlice(t, x, id, |s| + 2);
  }

  lemma ShiftedParts(t: seq<Id2>, s: seq<Id2>, x: nat)
    requires Shifted(t, s, x)
    ensures t[0].mid == |s| + 1 < |t| && 0 < x <= |s| + 1
    ensures t[1..x] == s[..x - 1] && t[x + 1..|s| + 2] == s[x - 1..]
  {
    var a, c := t[1..x], t[x + 1..|s| + 2];
    forall j | 0 <= j < |a| ensures a[j] == s[..x - 1][j] { assert a[j] == t[j + 1]; }
    forall j | 0 <= j < |c| ensures c[j] == s[x - 1..][j] { assert c[j] == t[x + 1 + j]; }
  }

  lemma ReplacedSlice(t: seq<Id2>, x: nat, id: Id2, n: nat)
    requires 0 < x < n <= |t|
    ensures t[x := id][1..n] == t[1..x] + [id] + t[x + 1..n]
  {
  }

  /** The list without its entry at index x. */
  ghost function Dropped(s: seq<Id2>, x: nat): seq<Id2>
    requires x < |s|
  {
    s[..x] + s[x + 1..]
  }

  /** The loop of mdb_ovpage_free that takes a page out of the list, from the end down to the page. */
  method Remove(dl: array<Id2>, mptr: int) returns (ok: bool)
    requires IsList(dl) && dl[0].mid > 0
    modifies dl
    ensures IsList(dl)
    ensures ok <==> exists k :: 0 <= k < |old(Items(dl))| && old(Items(dl))[k].mptr == mptr
    ensures ok ==> exists k :: 0 <= k < |old(Items(dl))| && old(Items(dl))[k].mptr == mptr && Items(dl) == Dropped(old(Items(dl)), k)
    ensures !ok ==> old(Items(dl)) != [] && Items(dl) == old(Items(dl))[1..] + [old(Items(dl))[0]]
  {
    ghost var s := Items(dl);
    var x := dl[0].mid;
    dl[0] := dl[0].(mid := x - 1);
    var ix := dl[x];
    while ix.mptr != mptr
      invariant 1 <= x <= |s| && ix == s[x - 1] && dl[0].mid == |s| - 1
      invariant forall j :: 1 <= j < x ==> dl[j] == s[j - 1]
      invariant forall j :: x <= j < |s| ==> dl[j] == s[j]
      invariant forall j :: x <= j < |s| ==> s[j].mptr != mptr
      decreases x
    {
      if x > 1 {
        x := x - 1;
        var iy := dl[x];
        dl[x] := ix;
        ix := iy;
      } else {
        dl[0] := dl[0].(mid := dl[0].mid + 1);
        dl[dl[0].mid] := ix;
        return false;
      }
    }
    assert s[x - 1].mptr == mptr && Items(dl) == Dropped(s, x - 1);
    return true;
  }

  // ---- The union of two lists ----------------------------------------------------------------

  /** The union of two lists in order; where both have a page the second one's wins. */
  ghost function Overlay(d: seq<Id2>, s: seq<Id2>): seq<Id2>
    decreases |d| + |s|
  {
    if s == [] then d
    else if d == [] then s
    else
      var a, b := d[|d| - 1], s[|s| - 1];
      if b.mid < a.mid then Overlay(d[..|d| - 1], s) + [a]
      else if b.mid == a.mid then Overlay(d[..|d| - 1], s[..|s| - 1]) + [b]
      else Overlay(d, s[..|s| - 1]) + [b]
  }

  /** How many pages two lists share. */
  ghost function Common(d: seq<Id2>, s: seq<Id2>): nat
    decreases |d| + |s|
  {
    if s == [] || d == [] then 0
    else
      var a, b := d[|d| - 1], s[|s| - 1];
      if b.mid < a.mid then Common(d[..|d| - 1], s)
      else if b.mid == a.mid then 1 + Common(d[..|d| - 1], s[..|s| - 1])
      else Common(d, s[..|s| - 1])
  }

  lemma {:induction false} OverlayLength(d: seq<Id2>, s: seq<Id2>)
    ensures |Overlay(d, s)| == |d| + |s| - Common(d, s)
    ensures Common(d, s) <= |s| && Common(d, s) <= |d|
    decreases |d| + |s|
  {
    if s != [] && d != [] {
      var a, b := d[|d| - 1], s[|s| - 1];
      if b.mid < a.mid { OverlayLength(d[..|d| - 1], s); }
      else if b.mid == a.mid { OverlayLength(d[..|d| - 1], s[..|s| - 1]); }
      else { OverlayLength(d, s[..|s| - 1]); }
    }
  }

  /** The page a list has for a page number. */
  datatype Option<T> = None | Some(value: T)

  ghost function Find(s: seq<Id2>, mid: nat): Option<int> {
    if s == [] then None
    else if s[|s| - 1].mid == mid then Some(s[|s| - 1].mptr)
    else Find(s[..|s| - 1], mid)
  }

  lemma {:induction false} FindHas(s: seq<Id2>, mid: nat)
    ensures Find(s, mid).Some? <==> Has(s, mid)
  {
    if s != [] {
      var t := s[..|s| - 1];
      FindHas(t, mid);
      if Has(t, mid) {
        var x :| 0 <= x < |t| && t[x].mid == mid;
        assert s[x].mid == mid;
      }
      if Has(s, mid) && s[|s| - 1].mid != mid {
        var x :| 0 <= x < |s| && s[x].mid == mid;
        assert t[x].mid == mid;
      }
    }
  }

  lemma {:induction false} FindAt(s: seq<Id2>, x: nat)
    requires Ascending(s) && x < |s|
    ensures Find(s, s[x].mid) == Some(s[x].mptr)
  {
    if x < |s| - 1 {
      assert s[x].mid < s[|s| - 1].mid;
      FindAt(s[..|s| - 1], x);
    }
  }

  lemma {:induction false} FindAbove(s: seq<Id2>, mid: nat)
    requires forall x :: 0 <= x < |s| ==> s[x].mid < mid
    ensures Find(s, mid) == None
  {
    if s != [] { FindAbove(s[..|s| - 1], mid); }
  }

  lemma {:induction false} FindAppend(a: seq<Id2>, b: seq<Id2>, mid: nat)
    ensures Find(a + b, mid) == if Find(b, mid).Some? then Find(b, mid) else Find(a, mid)
    decreases |b|
  {
    if b == [] {
      assert a + b == a;
    } else {
      var c := b[..|b| - 1];
      FindAppend(a, c, mid);
      assert (a + b)[..|a + b| - 1] == a + c;
    }
  }

  /** A new entry is found under its page number, the others as before. */
  lemma {:induction false} FindInserted(s: seq<Id2>, id: Id2, mid: nat)
    requires !Has(s, id.mid)
    ensures Find(Inserted(s, id), mid) == if mid == id.mid then Some(id.mptr) else Find(s, mid)
  {
    hide Has;
    var n := Below(s, id.mid);
    assert s[..n] + s[n..] == s;
    FindHas(s, id.mid);
    FindAppend(s[..n], s[n..], mid);
    FindAppend(s[..n] + [id], s[n..], mid);
    FindAppend(s[..n], [id], mid);
    assert [id][..0] == [];
  }

  /** The union has the second list's page wherever that list has one, and else the first one's. */
  lemma {:induction false} OverlayFind(d: seq<Id2>, s: seq<Id2>, mid: nat)
    requires Ascending(d) && Ascending(s)
    ensures Find(Overlay(d, s), mid) == if Find(s, mid).Some? then Find(s, mid) else Find(d, mid)
    decreases |d| + |s|
  {
    if s != [] && d != [] {
      var a, b := d[|d| - 1], s[|s| - 1];
      var d', s' := d[..|d| - 1], s[..|s| - 1];
      if b.mid < a.mid {
        OverlayFind(d', s, mid);
        assert Overlay(d, s)[..|Overlay(d', s)|] == Overlay(d', s);
        if mid == a.mid { FindAbove(s, mid); }
      } else if b.mid == a.mid {
        OverlayFind(d', s', mid);
        assert Overlay(d, s)[..|Overlay(d', s')|] == Overlay(d', s');
      } else {
        OverlayFind(d, s', mid);
        assert Overlay(d, s)[..|Overlay(d, s')|] == Overlay(d, s');
      }
    }
  }

  lemma {:induction false} OverlayBelow(d: seq<Id2>, s: seq<Id2>, m: nat)
    requires forall x :: 0 <= x < |d| ==> d[x].mid < m
    requires forall x :: 0 <= x < |s| ==> s[x].mid < m
    ensures forall x :: 0 <= x < |Overlay(d, s)| ==> Overlay(d, s)[x].mid < m
    decreases |d| + |s|
  {
    if s != [] && d != [] {
      var a, b := d[|d| - 1], s[|s| - 1];
      if b.mid < a.mid { OverlayBelow(d[..|d| - 1], s, m); }
      else if b.mid == a.mid { OverlayBelow(d[..|d| - 1], s[..|s| - 1], m); }
      else { OverlayBelow(d, s[..|s| - 1], m); }
    }
  }

  /** The union is sorted and has no page twice. */
  lemma {:induction false} OverlayAscends(d: seq<Id2>, s: seq<Id2>)
    requires Ascending(d) && Ascending(s)
    ensures Ascending(Overlay(d, s))
    decreases |d| + |s|
  {
    if s != [] && d != [] {
      var a, b := d[|d| - 1], s[|s| - 1];
      var d', s' := d[..|d| - 1], s[..|s| - 1];
      if b.mid < a.mid {
        OverlayAscends(d', s);
        OverlayBelow(d', s, a.mid);
      } else if b.mid == a.mid {
        OverlayAscends(d', s');
        OverlayBelow(d', s', b.mid);
      } else {
        OverlayAscends(d, s');
        OverlayBelow(d, s', b.mid);
      }
    }
  }

  /** The buffers of the first list's pages that the second list replaces. */
  ghost function Replaced(d: seq<Id2>, s: seq<Id2>): multiset<int>
    decreases |d| + |s|
  {
    if s == [] || d == [] then multiset{}
    else
      var a, b := d[|d| - 1], s[|s| - 1];
      if b.mid < a.mid then Replaced(d[..|d| - 1], s)
      else if b.mid == a.mid then Replaced(d[..|d| - 1], s[..|s| - 1]) + multiset{a.mptr}
      else Replaced(d, s[..|s| - 1])
  }

  // ---- The buffers of a list -----------------------------------------------------------------

  ghost function Ptrs(s: seq<Id2>): multiset<int> {
    if s == [] then multiset{} else Ptrs(s[..|s| - 1]) + multiset{s[|s| - 1].mptr}
  }

  lemma PtrsLast(s: seq<Id2>, id: Id2)
    ensures Ptrs(s + [id]) == Ptrs(s) + multiset{id.mptr}
  {
    assert (s + [id])[..|s|] == s;
  }

  lemma {:induction false} PtrsAppend(a: seq<Id2>, b: seq<Id2>)
    ensures Ptrs(a + b) == Ptrs(a) + Ptrs(b)
    decreases |b|
  {
    hide Ptrs;
    PtrsNone();
    if b == [] {
      assert a + b == a;
    } else {
      var c, id := b[..|b| - 1], b[|b| - 1];
      PtrsAppend(a, c);
      assert b == c + [id] && a + b == (a + c) + [id];
      PtrsLast(c, id);
      PtrsLast(a + c, id);
    }
  }

  lemma PtrsNone()
    ensures Ptrs([]) == multiset{}
  {
  }

  lemma {:induction false} FindInPtrs(s: seq<Id2>, mid: nat)
    ensures Find(s, mid).Some? ==> Find(s, mid).value in Ptrs(s)
  {
    if s != [] && s[|s| - 1].mid != mid { FindInPtrs(s[..|s| - 1], mid); }
  }

  lemma {:induction false} PtrsInserted(s: seq<Id2>, id: Id2)
    ensures Ptrs(Inserted(s, id)) == Ptrs(s) + multiset{id.mptr}
  {
    hide Ptrs;
    var n := Below(s, id.mid);
    assert s[..n] + s[n..] == s;
    PtrsAppend(s[..n], s[n..]);
    PtrsLast(s[..n], id);
    PtrsAppend(s[..n] + [id], s[n..]);
  }

  lemma {:induction false} PtrsDropped(s: seq<Id2>, x: nat)
    requires x < |s|
    ensures Ptrs(s) == Ptrs(Dropped(s, x)) + multiset{s[x].mptr}
  {
    hide Ptrs;
    assert s == s[..x] + [s[x]] + s[x + 1..];
    PtrsLast(s[..x], s[x]);
    PtrsAppend(s[..x] + [s[x]], s[x + 1..]);
    PtrsAppend(s[..x], s[x + 1..]);
  }

  lemma SumsKept(o: multiset<int>, r: multiset<int>, d: multiset<int>, s: multiset<int>, x: int)
    requires o + r == d + s
    ensures o + multiset{x} + r == (d + multiset{x}) + s
    ensures o + multiset{x} + r == d + (s + multiset{x})
  {
    assert o + multiset{x} + r == (o + r) + multiset{x};
  }

  /** The buffers of the union and those it replaces are the buffers of both lists. */
  lemma {:induction false} OverlayPtrs(d: seq<Id2>, s: seq<Id2>)
    ensures Ptrs(Overlay(d, s)) + Replaced(d, s) == Ptrs(d) + Ptrs(s)
    decreases |d| + |s|
  {
    hide Ptrs;
    PtrsNone();
    if s != [] && d != [] {
      var a, b := d[|d| - 1], s[|s| - 1];
      var d', s' := d[..|d| - 1], s[..|s| - 1];
      assert d == d' + [a] && s == s' + [b];
      PtrsLast(d', a);
      PtrsLast(s', b);
      if b.mid < a.mid {
        OverlayPtrs(d', s);
        PtrsLast(Overlay(d', s), a);
        SumsKept(Ptrs(Overlay(d', s)), Replaced(d', s), Ptrs(d'), Ptrs(s), a.mptr);
      } else if b.mid == a.mid {
        OverlayPtrs(d', s');
        PtrsLast(Overlay(d', s'), b);
        SumsKept(Ptrs(Overlay(d', s')), Replaced(d', s'), Ptrs(d'), Ptrs(s'), b.mptr);
        assert Ptrs(Overlay(d, s)) + Replaced(d, s) == (Ptrs(d') + (Ptrs(s') + multiset{b.mptr})) + multiset{a.mptr};
      } else {
        OverlayPtrs(d, s');
        PtrsLast(Overlay(d, s'), b);
        SumsKept(Ptrs(Overlay(d, s')), Replaced(d, s'), Ptrs(d), Ptrs(s'), b.mptr);
      }
    }
  }

  // ---- Merging a committing transaction's list into its parent's ------------------------------

  lemma TakeTwice(s: seq<Id2>, y: nat)
    requires 0 < y <= |s|
    ensures s[..y][..y - 1] == s[..y - 1] && s[..y][y - 1] == s[y - 1]
  {
  }

  /** The entries of `src` above the last one of `dst` are shared with none. */
  lemma {:induction false} CommonAbove(d: seq<Id2>, s: seq<Id2>, y: nat)
    requires y <= |s| && forall k :: y <= k < |s| ==> d == [] || d[|d| - 1].mid < s[k].mid
    ensures Common(d, s) == Common(d, s[..y])
    decreases |s|
  {
    if y < |s| {
      var t := s[..|s| - 1];
      CommonAbove(d, t, y);
      assert t[..y] == s[..y];
    } else {
      assert s[..y] == s;
    }
  }

  /** The common pages of two prefixes, by their last entries. */
  lemma CommonStep(d: seq<Id2>, s: seq<Id2>, i: nat, y: nat)
    requires i <= |d| && y <= |s|
    ensures i == 0 || y == 0 ==> Common(d[..i], s[..y]) == 0
    ensures i > 0 && y > 0 && s[y - 1].mid < d[i - 1].mid ==> Common(d[..i], s[..y]) == Common(d[..i - 1], s[..y])
    ensures i > 0 && y > 0 && s[y - 1].mid == d[i - 1].mid ==> Common(d[..i], s[..y]) == 1 + Common(d[..i - 1], s[..y - 1])
    ensures i > 0 && y > 0 && s[y - 1].mid > d[i - 1].mid ==> Common(d[..i], s[..y]) == Common(d[..i], s[..y - 1])
  {
    if i > 0 && y > 0 {
      TakeTwice(d, i);
      TakeTwice(s, y);
    }
  }

  /** The length of the merged list when the parent itself has a parent (mdb.c:3291-3305). */
  method UnionLength(dst: array<Id2>, src: array<Id2>, x: nat) returns (len: nat)
    requires x < dst.Length && dst[0].mid == 0 && IsList(src) && Ascending(Items(src)) && Positive(Items(src))
    requires Ascending(dst[1..x + 1])
    ensures len == |Overlay(dst[1..x + 1], Items(src))|
  {
    hide Common, Overlay, Ascending, Below;
    ghost var d, s := dst[1..x + 1], Items(src);
    OverlayLength(d, s);
    var total: int := x + src[0].mid;
    var y: nat := Search(src, dst[x].mid + 1);
    y := y - 1;
    var i: nat := x;
    Ordered(s);
    assert forall k :: 1 <= k <= x ==> dst[k] == d[k - 1];
    assert forall k :: 1 <= k <= |s| ==> src[k] == s[k - 1];
    CommonAbove(d, s, y);
    assert d[..x] == d;
    while y > 0 && i > 0
      invariant i <= x && y <= |s|
      invariant total == |d| + |s| - (Common(d, s) - Common(d[..i], s[..y]))
      decreases y
    {
      var yp := src[y].mid;
      CommonStep(d, s, i, y);
      while yp < dst[i].mid
        invariant i <= x && yp == s[y - 1].mid
        invariant total == |d| + |s| - (Common(d, s) - Common(d[..i], s[..y]))
        decreases i
      {
        CommonStep(d, s, i, y);
        i := i - 1;
      }
      CommonStep(d, s, i, y);
      if yp == dst[i].mid {
        i := i - 1;
        total := total - 1;
      }
      y := y - 1;
      CommonStep(d, s, i, y);
    }
    CommonStep(d, s, i, y);
    len := total;
  }

  /** Slots 1 .. x of the block still hold the parent's list, the slots after i the end of the union. */
  ghost predicate Merging(t: seq<Id2>, d: seq<Id2>, s: seq<Id2>, len: nat, x: nat, y: nat, i: int) {
    var u := Overlay(d, s);
    var gap := len - |u|;
    && 0 <= gap && len < |t| && x <= |d| && x < |t| && y <= |s| && t[0].mid == 0
    && Overlay(d[..x], s[..y]) <= u && i == gap + |Overlay(d[..x], s[..y])|
    && t[1..x + 1] == d[..x] && t[i + 1..len + 1] == u[i - gap..]
  }

  lemma {:induction false} MergeBounds(t: seq<Id2>, d: seq<Id2>, s: seq<Id2>, len: nat, x: nat, y: nat, i: int)
    requires x <= |d| && y <= |s| && len >= |Overlay(d, s)| && len < |t|
    requires Overlay(d[..x], s[..y]) <= Overlay(d, s) && i == len - |Overlay(d, s)| + |Overlay(d[..x], s[..y])|
    ensures x <= i <= len
  {
    OverlayLength(d[..x], s[..y]);
    assert |d[..x]| == x && |s[..y]| == y;
  }

  /** The parent's last remaining entry is above the child's: it moves up. */
  lemma {:induction false} MoveParents(t: seq<Id2>, d: seq<Id2>, s: seq<Id2>, len: nat, x: nat, y: nat, i: int)
    requires |d| + 1 < |t| && Merging(t, d, s, len, x, y, i) && 0 < x && 0 < y && s[y - 1].mid < d[x - 1].mid
    ensures 0 < x <= i <= len && t[x] == d[x - 1] && Merging(t[i := t[x]], d, s, len, x - 1, y, i - 1)
  {
    hide Overlay;
    OverlayParents(d, s, x, y);
    MergeBounds(t, d, s, len, x, y, i);
    assert t[1..x + 1][x - 1] == t[x];
    MergedSlot(t, Overlay(d, s), len, i, t[x]);
    KeptSlots(t, d, x, x - 1, i, t[x]);
  }

  lemma OverlayParents(d: seq<Id2>, s: seq<Id2>, x: nat, y: nat)
    requires 0 < x <= |d| && 0 < y <= |s| && s[y - 1].mid < d[x - 1].mid
    ensures Overlay(d[..x], s[..y]) == Overlay(d[..x - 1], s[..y]) + [d[x - 1]]
  {
    TakeTwice(d, x);
    TakeTwice(s, y);
  }

  /** Otherwise the child's entry goes next, and takes the place of the parent's for the same page. */
  lemma {:induction false} OverlayChilds(d: seq<Id2>, s: seq<Id2>, x: nat, y: nat)
    requires x <= |d| && 0 < y <= |s| && (x > 0 ==> d[x - 1].mid <= s[y - 1].mid)
    ensures var x' := if x > 0 && d[x - 1].mid == s[y - 1].mid then x - 1 else x;
            Overlay(d[..x], s[..y]) == Overlay(d[..x'], s[..y - 1]) + [s[y - 1]]
  {
    TakeTwice(s, y);
    if x > 0 { TakeTwice(d, x); }
    if x == 0 { assert d[..0] == []; OverlayNothing(s[..y - 1]); }
  }

  lemma OverlayNothing(s: seq<Id2>)
    ensures Overlay([], s) == s
  {
  }

  /** Writing the next entry of the union from the end. */
  lemma MergedSlot(t: seq<Id2>, u: seq<Id2>, len: nat, i: int, v: Id2)
    requires |u| <= len < |t| && len - |u| < i <= len
    requires t[i + 1..len + 1] == u[i - (len - |u|)..] && v == u[i - 1 - (len - |u|)]
    ensures t[i := v][i..len + 1] == u[i - 1 - (len - |u|)..]
  {
  }

  lemma KeptSlots(t: seq<Id2>, d: seq<Id2>, x: nat, x': nat, i: nat, v: Id2)
    requires x' <= x <= |d| && x' < i < |t| && x + 1 <= |t| && t[1..x + 1] == d[..x]
    ensures t[i := v][1..x' + 1] == d[..x']
  {
    var a, r := t[1..x + 1], t[i := v][1..x' + 1];
    assert forall k :: 0 <= k < x' ==> r[k] == a[k] == d[k];
  }

  lemma {:induction false} MoveChilds(t: seq<Id2>, d: seq<Id2>, s: seq<Id2>, len: nat, x: nat, y: nat, i: int)
    requires |d| + 1 < |t| && Merging(t, d, s, len, x, y, i) && 0 < y && (x > 0 ==> d[x - 1].mid <= s[y - 1].mid)
    ensures var x' := if x > 0 && d[x - 1].mid == s[y - 1].mid then x - 1 else x;
            x' < i <= len && Merging(t[i := s[y - 1]], d, s, len, x', y - 1, i - 1)
  {
    hide Overlay;
    var x' := if x > 0 && d[x - 1].mid == s[y - 1].mid then x - 1 else x;
    OverlayChilds(d, s, x, y);
    MergeBounds(t, d, s, len, x, y, i);
    MergeBounds(t, d, s, len, x', y - 1, i - 1);
    MergedSlot(t, Overlay(d, s), len, i, s[y - 1]);
    KeptSlots(t, d, x, x', i, s[y - 1]);
  }

  lemma {:induction false} MergeStarts(t: seq<Id2>, d: seq<Id2>, s: seq<Id2>, len: nat)
    requires |Overlay(d, s)| <= len < |t| && |d| < |t| && t[0].mid == 0 && t[1..|d| + 1] == d
    ensures Merging(t, d, s, len, |d|, |s|, len)
  {
    assert d[..|d|] == d && s[..|s|] == s;
  }

  lemma {:induction false} MergeEnds(t: seq<Id2>, d: seq<Id2>, s: seq<Id2>, len: nat, x: nat, i: int)
    requires Merging(t, d, s, len, x, 0, i)
    ensures i - x == len - |Overlay(d, s)|
    ensures i == x ==> t[1..len + 1] == Overlay(d, s)
  {
    var u := Overlay(d, s);
    assert Overlay(d[..x], s[..0]) == d[..x];
    if i == x { assert t[1..len + 1] == t[1..x + 1] + t[i + 1..len + 1] && u == u[..x] + u[x..]; }
  }

  /**
   The merge loop, from the end (mdb.c:3309-3319). The two indices meet exactly if `len` is the
   length of the union; then the block holds the union, the child's page winning.
   */
  method MergeInto(dst: array<Id2>, src: array<Id2>, x0: nat, len: nat) returns (x: nat, i: int, freed: seq<int>)
    requires x0 + 1 < dst.Length && dst[0].mid == 0 && dst != src && Positive(dst[1..x0 + 1])
    requires IsList(src) && Positive(Items(src))
    requires |Overlay(dst[1..x0 + 1], Items(src))| <= len < dst.Length
    modifies dst
    ensures i - x == len - |Overlay(old(dst[1..x0 + 1]), Items(src))|
    ensures i == x ==> dst[1..len + 1] == Overlay(old(dst[1..x0 + 1]), Items(src))
    ensures multiset(freed) == Replaced(old(dst[1..x0 + 1]), Items(src))
  {
    hide Overlay, Merging, Replaced;
    ghost var d, s := dst[1..x0 + 1], Items(src);
    MergeStarts(dst[..], d, s, len);
    x, i, freed := x0, len, [];
    assert d[..x] == d && s[..|s|] == s;
    var y: nat := src[0].mid;
    while y > 0
      invariant x <= x0 && y <= |s| && Merging(dst[..], d, s, len, x, y, i)
      invariant multiset(freed) + Replaced(d[..x], s[..y]) == Replaced(d, s)
    {
      var yp := src[y].mid;
      assert src[y] == s[y - 1];
      MergingSlots(dst[..], d, s, len, x, y, i);
      ReplacedStep(d, s, x, y);
      while yp < dst[x].mid
        invariant x <= x0 && Merging(dst[..], d, s, len, x, y, i)
        invariant dst[0].mid == 0 && (x > 0 ==> dst[x] == d[x - 1])
        invariant multiset(freed) + Replaced(d[..x], s[..y]) == Replaced(d, s)
        decreases x
      {
        ReplacedStep(d, s, x, y);
        MoveParents(dst[..], d, s, len, x, y, i);
        dst[i] := dst[x];
        i, x := i - 1, x - 1;
        MergingSlots(dst[..], d, s, len, x, y, i);
      }
      ReplacedStep(d, s, x, y);
      MoveChilds(dst[..], d, s, len, x, y, i);
      if yp == dst[x].mid { freed, x := freed + [dst[x].mptr], x - 1; }
      dst[i] := src[y];
      i, y := i - 1, y - 1;
    }
    ReplacedStep(d, s, x, 0);
    MergeEnds(dst[..], d, s, len, x, i);
    assert dst[1..len + 1] == dst[..][1..len + 1];
  }

  /** The replaced buffers of two prefixes, by their last entries. */
  lemma ReplacedStep(d: seq<Id2>, s: seq<Id2>, x: nat, y: nat)
    requires x <= |d| && y <= |s|
    ensures x == 0 || y == 0 ==> Replaced(d[..x], s[..y]) == multiset{}
    ensures x > 0 && y > 0 && s[y - 1].mid < d[x - 1].mid ==> Replaced(d[..x], s[..y]) == Replaced(d[..x - 1], s[..y])
    ensures x > 0 && y > 0 && s[y - 1].mid == d[x - 1].mid ==>
      Replaced(d[..x], s[..y]) == Replaced(d[..x - 1], s[..y - 1]) + multiset{d[x - 1].mptr}
    ensures y > 0 && (x > 0 ==> s[y - 1].mid > d[x - 1].mid) ==> Replaced(d[..x], s[..y]) == Replaced(d[..x], s[..y - 1])
  {
    assert d[..0] == [] && s[..0] == [];
    if y > 0 { TakeTwice(s, y); }
    if x > 0 { TakeTwice(d, x); }
  }

  lemma MergingSlots(t: seq<Id2>, d: seq<Id2>, s: seq<Id2>, len: nat, x: nat, y: nat, i: int)
    requires x < |t| && Merging(t, d, s, len, x, y, i)
    ensures t[0].mid == 0 && (x > 0 ==> t[x] == d[x - 1])
  {
    assert x > 0 ==> t[1..x + 1][x - 1] == t[x];
  }

  /**
   The dirty-list part of committing a nested transaction. `room` is the child's mt_dirty_room:
   if it is UM_MAX less the number of pages dirty in either list, as its description says, the
   parent ends up with the union, sorted and without duplicates, and the indices meet. The parent's
   buffers of pages that are in both lists are freed.
   */
  method CommitDirty(dst: array<Id2>, src: array<Id2>, room: nat, nested: bool) returns (met: bool, freed: seq<int>)
    requires IsList(dst) && IsList(src) && dst != src && dst.Length > UM_MAX + 1 && dst[0].mid <= UM_MAX
    requires Ascending(Items(dst)) && Positive(Items(dst)) && Ascending(Items(src)) && Positive(Items(src))
    requires |Overlay(Items(dst), Items(src))| + room <= UM_MAX
    modifies dst
    ensures met <==> nested || room == UM_MAX - |Overlay(old(Items(dst)), Items(src))|
    ensures met ==> IsList(dst) && Items(dst) == Overlay(old(Items(dst)), Items(src)) && Ascending(Items(dst))
    ensures multiset(freed) == Replaced(old(Items(dst)), Items(src))
  {
    hide Overlay, Replaced;
    ghost var d, s := Items(dst), Items(src);
    var x := dst[0].mid;
    dst[0] := dst[0].(mid := 0);
    assert dst[1..x + 1] == d && Items(src) == s;
    var len;
    if nested { len := UnionLength(dst, src, x); } else { len := UM_MAX - room; }
    var i;
    x, i, freed := MergeInto(dst, src, x, len);
    dst[0] := dst[0].(mid := len);
    OverlayAscends(d, s);
    met := i == x;
  }
}
