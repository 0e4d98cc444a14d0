/**
 The in-place sort of midl.c (mdb_midl_sort): quicksort with an explicit stack, handing short
 segments to an insertion sort.

 Positions are relative to slot `o` of the array, where the count of the list lives; the list
 itself occupies positions 1..n.
 */
module IdSort {
  import opened IdList

  const SMALL := 8
  /** sizeof(int) * CHAR_BIT * 2, the length of the explicit stack. */
  const STACK_LENGTH := 64
  const INT_MAX := 0x7FFF_FFFF

  /** `t` is `s` with positions lo..hi permuted among themselves. */
  ghost predicate Rearranged(s: seq<nat>, t: seq<nat>, lo: nat, hi: int) {
    && |s| == |t| && lo <= hi + 1 <= |s|
    && s[..lo] == t[..lo] && s[hi + 1..] == t[hi + 1..]
    && multiset(s[lo..hi + 1]) == multiset(t[lo..hi + 1])
  }

  lemma RearrangedTwice(s: seq<nat>, t: seq<nat>, u: seq<nat>, lo: nat, hi: int)
    requires Rearranged(s, t, lo, hi) && Rearranged(t, u, lo, hi)
    ensures Rearranged(s, u, lo, hi)
  {
  }

  lemma RearrangedWider(s: seq<nat>, t: seq<nat>, lo: nat, hi: int, lo': nat, hi': int)
    requires Rearranged(s, t, lo, hi) && lo' <= lo && hi <= hi' < |s|
    ensures Rearranged(s, t, lo', hi')
  {
    assert s[..lo'] == s[..lo][..lo'] && t[..lo'] == t[..lo][..lo'];
    assert s[hi' + 1..] == s[hi + 1..][hi' - hi..] && t[hi' + 1..] == t[hi + 1..][hi' - hi..];
    assert s[lo'..hi' + 1] == s[..lo][lo'..] + s[lo..hi + 1] + s[hi + 1..][..hi' - hi];
    assert t[lo'..hi' + 1] == t[..lo][lo'..] + t[lo..hi + 1] + t[hi + 1..][..hi' - hi];
  }

  /** Where the value at position x of `t` was in `s`: in the segment if x is, else at x. */
  lemma RearrangedFrom(s: seq<nat>, t: seq<nat>, lo: nat, hi: int, x: nat) returns (q: nat)
    requires Rearranged(s, t, lo, hi) && x < |s|
    ensures q < |s| && s[q] == t[x]
    ensures if lo <= x <= hi then lo <= q <= hi else q == x
  {
    q := x;
    if lo <= x <= hi {
      var u := s[lo..hi + 1];
      assert t[x] == t[lo..hi + 1][x - lo];
      assert t[x] in multiset(u);
      var k: nat :| k < |u| && u[k] == t[x];
      q := lo + k;
    } else if x < lo {
      assert s[..lo][x] == t[..lo][x];
    } else {
      assert s[hi + 1..][x - hi - 1] == t[hi + 1..][x - hi - 1];
    }
  }

  lemma SwapRearranges(s: seq<nat>, x: nat, y: nat)
    requires x <= y < |s|
    ensures Rearranged(s, s[x := s[y]][y := s[x]], x, y)
  {
    var t := s[x := s[y]][y := s[x]];
    assert t[..x] == s[..x] && t[y + 1..] == s[y + 1..];
    if x == y {
      assert t == s;
    } else {
      assert s[x..y + 1] == [s[x]] + s[x + 1..y] + [s[y]];
      assert t[x..y + 1] == [s[y]] + s[x + 1..y] + [s[x]];
    }
  }

  method Swap(a: array<nat>, x: nat, y: nat)
    requires x <= y < a.Length
    modifies a
    ensures a[..] == old(a[..])[x := old(a[y])][y := old(a[x])]
    ensures Rearranged(old(a[..]), a[..], x, y)
  {
    SwapRearranges(a[..], x, y);
    var tmp := a[x];
    a[x] := a[y];
    a[y] := tmp;
  }

  /** Within positions b..e, everything left of p is at least everything from p on. */
  ghost predicate Cut(s: seq<nat>, b: nat, e: int, p: int) {
    e < |s| && forall x, y :: b <= x < p && p <= y <= e ==> s[x] >= s[y]
  }

  lemma CutKept(s: seq<nat>, t: seq<nat>, b: nat, e: int, lo: nat, hi: int, p: int)
    requires b <= lo && hi <= e
    requires Rearranged(s, t, lo, hi)
    requires Cut(s, b, e, p) && (p <= lo || hi < p)
    ensures Cut(t, b, e, p)
  {
    forall x, y | b <= x < p && p <= y <= e ensures t[x] >= t[y] {
      var x' := RearrangedFrom(s, t, lo, hi, x);
      var y' := RearrangedFrom(s, t, lo, hi, y);
      assert s[x'] >= s[y'];
    }
  }

  // ---- Insertion sort ---------------------------------------------------------------------

  /** `s` with the element at j moved down to p. */
  ghost function Moved(s: seq<nat>, p: nat, j: nat): (t: seq<nat>)
    requires p <= j < |s|
    ensures |t| == |s|
  {
    s[..p] + [s[j]] + s[p..j] + s[j + 1..]
  }

  lemma MovedRearranges(s: seq<nat>, p: nat, j: nat)
    requires p <= j < |s|
    ensures Rearranged(s, Moved(s, p, j), p, j)
  {
    assert s[p..j + 1] == s[p..j] + [s[j]];
    assert Moved(s, p, j)[p..j + 1] == [s[j]] + s[p..j];
  }

  /** `t` is `s` with positions p..j-1 copied one up, which leaves p free. */
  ghost predicate ShiftedUp(s: seq<nat>, t: seq<nat>, p: nat, j: nat) {
    && p <= j < |s| == |t|
    && (forall x :: 0 <= x <= p ==> t[x] == s[x])
    && (forall x :: p < x <= j ==> t[x] == s[x - 1])
    && (forall x :: j < x < |s| ==> t[x] == s[x])
  }

  /** Filling the gap with the element that was at j completes the insertion. */
  lemma StoreInGap(s: seq<nat>, t: seq<nat>, l: nat, p: nat, j: nat)
    requires ShiftedUp(s, t, p, j) && l <= p
    requires Descending(s[l..j])
    requires p > l ==> s[p - 1] >= s[j]
    requires forall x :: p <= x < j ==> s[x] < s[j]
    ensures Rearranged(s, t[p := s[j]], l, j)
    ensures Descending(t[p := s[j]][l..j + 1])
  {
    assert t[p := s[j]] == Moved(s, p, j);
    MovedRearranges(s, p, j);
    RearrangedWider(s, Moved(s, p, j), p, j, l, j);
    MovedDescending(s, l, p, j);
  }

  /** Move up the ids below the one at j; the left neighbours of the segment stop the scan. */
  method OpenGap(a: array<nat>, b: nat, l: nat, j: nat, ghost e: nat) returns (p: nat)
    requires 0 < b <= l < j <= e < a.Length
    requires Cut(a[..], b, e, l)
    modifies a
    ensures l <= p && ShiftedUp(old(a[..]), a[..], p, j)
    ensures p > l ==> old(a[..])[p - 1] >= old(a[..])[j]
    ensures forall x :: p <= x < j ==> old(a[..])[x] < old(a[..])[j]
  {
    ghost var s := a[..];
    var v := a[j];
    var i := j - 1;
    while i >= b
      invariant l - 1 <= i < j
      invariant ShiftedUp(s, a[..], i + 1, j)
      invariant forall x :: i < x < j ==> s[x] < v
    {
      assert a[i] == s[i];
      if a[i] >= v { break; }
      a[i + 1] := a[i];
      i := i - 1;
    }
    p := i + 1;
  }

  /** Insert the element at j into the descending run before it. */
  method InsertOne(a: array<nat>, b: nat, l: nat, j: nat, ghost e: nat)
    requires 0 < b <= l < j <= e < a.Length
    requires Cut(a[..], b, e, l) && Descending(a[..][l..j])
    modifies a
    ensures Rearranged(old(a[..]), a[..], l, j)
    ensures Descending(a[..][l..j + 1])
  {
    ghost var s := a[..];
    var v := a[j];
    var p := OpenGap(a, b, l, j, e);
    StoreInGap(s, a[..], l, p, j);
    a[p] := v;
  }

  lemma MovedDescending(s: seq<nat>, l: nat, p: nat, j: nat)
    requires l <= p <= j < |s|
    requires Descending(s[l..j])
    requires p > l ==> s[p - 1] >= s[j]
    requires forall x :: p <= x < j ==> s[x] < s[j]
    ensures Descending(Moved(s, p, j)[l..j + 1])
  {
    var r := s[l..j];
    var u := Moved(s, p, j)[l..j + 1];
    assert u == r[..p - l] + [s[j]] + r[p - l..];
    assert p > l ==> r[p - l - 1] >= s[j];
    assert forall x :: p - l <= x < j - l ==> r[x] == s[l + x] < s[j];
  }

  lemma InsertionStep(s: seq<nat>, t: seq<nat>, u: seq<nat>, b: nat, l: nat, j: nat, e: int)
    requires b <= l < j <= e < |s|
    requires Rearranged(s, t, l, e) && Rearranged(t, u, l, j)
    requires Cut(s, b, e, l)
    ensures Rearranged(s, u, l, e) && Cut(u, b, e, l)
  {
    RearrangedWider(t, u, l, j, l, e);
    RearrangedTwice(s, t, u, l, e);
    CutKept(s, u, b, e, l, e, l);
  }

  lemma InsertionStarts(s: seq<nat>, l: nat, ir: int)
    requires l <= ir + 1 <= |s|
    ensures Rearranged(s, s, l, ir)
  {
  }

  /** Sort a short segment; everything left of it is at least as large. */
  method InsertionPass(a: array<nat>, b: nat, l: nat, ir: int)
    requires 0 < b <= l <= ir + 1 <= a.Length
    requires Cut(a[..], b, ir, l)
    modifies a
    ensures Rearranged(old(a[..]), a[..], l, ir)
    ensures Descending(a[..][l..ir + 1])
  {
    hide Rearranged, Cut;
    ghost var s := a[..];
    InsertionStarts(s, l, ir);
    var j := l + 1;
    while j <= ir
      invariant l < j && (j <= ir + 1 || (l == ir + 1 && j == l + 1))
      invariant Rearranged(s, a[..], l, ir) && Cut(a[..], b, ir, l)
      invariant j <= ir + 1 ==> Descending(a[..][l..j])
    {
      ghost var t := a[..];
      InsertOne(a, b, l, j, ir);
      InsertionStep(s, t, a[..], b, l, j, ir);
      j := j + 1;
    }
  }

  // ---- Partition --------------------------------------------------------------------------

  /** Advance to the next id that is at most the pivot; the one at `ir` stops the scan. */
  method ScanUp(a: array<nat>, i0: nat, ir: nat, v: nat) returns (i: nat)
    requires i0 < ir < a.Length && a[ir] <= v
    ensures i0 < i <= ir && a[i] <= v
    ensures forall x :: i0 < x < i ==> a[x] > v
  {
    i := i0 + 1;
    while a[i] > v
      invariant i0 < i <= ir
      decreases ir - i
      invariant forall x :: i0 < x < i ==> a[x] > v
    {
      i := i + 1;
    }
  }

  /** Retreat to the next id that is at least the pivot; the one at `lo` stops the scan. */
  method ScanDown(a: array<nat>, lo: nat, j0: nat, v: nat) returns (j: nat)
    requires lo < j0 <= a.Length && a[lo] >= v
    ensures lo <= j < j0 && a[j] >= v
    ensures forall x :: j < x < j0 ==> a[x] < v
  {
    j := j0 - 1;
    while a[j] < v
      invariant lo <= j < j0
      decreases j
      invariant forall x :: j < x < j0 ==> a[x] < v
    {
      j := j - 1;
    }
  }

  lemma SwapStep(s: seq<nat>, t: seq<nat>, l: nat, ir: nat, x: nat, y: nat)
    requires Rearranged(s, t, l, ir) && l <= x <= y <= ir < |s|
    ensures Rearranged(s, t[x := t[y]][y := t[x]], l, ir)
  {
    SwapRearranges(t, x, y);
    RearrangedWider(t, t[x := t[y]][y := t[x]], x, y, l, ir);
  }

  /** Put the median of the left, centre and right ids at l + 1, between the other two. */
  method MedianOfThree(a: array<nat>, l: nat, k: nat, ir: nat)
    requires l + 1 < k < ir < a.Length
    modifies a
    ensures Rearranged(old(a[..]), a[..], l, ir)
    ensures a[l] >= a[l + 1] >= a[ir]
  {
    ghost var s := a[..];
    assert Rearranged(s, s, l, ir);
    hide Rearranged;
    SwapStep(s, a[..], l, ir, l + 1, k);
    Swap(a, l + 1, k);
    SwapStep(s, a[..], l, ir, l, ir);
    if a[l] < a[ir] { Swap(a, l, ir); }
    SwapStep(s, a[..], l, ir, l + 1, ir);
    if a[l + 1] < a[ir] { Swap(a, l + 1, ir); }
    SwapStep(s, a[..], l, ir, l, l + 1);
    if a[l] < a[l + 1] { Swap(a, l, l + 1); }
  }

  /** Positions l..i hold ids of at least v, positions j..ir ids of at most v. */
  ghost predicate Parted(t: seq<nat>, l: nat, i: nat, j: nat, ir: nat, v: nat) {
    && l + 1 <= i <= ir && j <= ir < |t| && t[l + 1] == v
    && (forall x :: l <= x <= i ==> t[x] >= v)
    && (forall x :: j <= x <= ir ==> t[x] <= v)
  }

  /** The result of a partition: l..j-1 above, j..i-1 equal to, i..ir below the pivot. */
  ghost predicate Partitioned(t: seq<nat>, l: nat, j: nat, i: nat, ir: nat) {
    && l < j < i <= ir < |t|
    && (forall x :: l <= x < j ==> t[x] >= t[j])
    && (forall x :: j <= x < i ==> t[x] == t[j])
    && (forall x :: i <= x <= ir ==> t[x] <= t[j])
  }

  lemma PartedStart(s: seq<nat>, l: nat, ir: nat, v: nat)
    requires l + 2 < ir < |s| && s[l] >= v && s[l + 1] == v && s[ir] <= v
    ensures Rearranged(s, s, l, ir) && Parted(s, l, l + 1, ir, ir, v)
  {
  }

  /** The values that stop the scans. */
  lemma PartedEnds(s: seq<nat>, l: nat, i: nat, j: nat, ir: nat, v: nat)
    requires Parted(s, l, i, j, ir, v)
    ensures s[l + 1] == v && s[ir] <= v
  {
  }

  /** The parts after both scans: the scans have met, or exchanging the ids found extends them. */
  lemma PartedGrows(s: seq<nat>, l: nat, i0: nat, j0: nat, i: nat, j: nat, ir: nat, v: nat)
    requires Parted(s, l, i0, j0, ir, v) && i0 < i <= ir && l + 1 <= j < j0
    requires s[i] <= v <= s[j]
    requires forall x :: i0 < x < i ==> s[x] > v
    requires forall x :: j < x < j0 ==> s[x] < v
    ensures j < i ==> Parted(s, l, i - 1, j + 1, ir, v)
    ensures i <= j ==> Parted(s[i := s[j]][j := s[i]], l, i, j, ir, v)
  {
  }

  method SwapPairs(a: array<nat>, l: nat, ir: nat, v: nat) returns (i: nat, j: nat)
    requires l + 2 < ir < a.Length
    requires a[l] >= v && a[l + 1] == v && a[ir] <= v
    modifies a
    ensures Rearranged(old(a[..]), a[..], l, ir)
    ensures l + 1 <= j < i <= ir
    ensures Parted(a[..], l, i - 1, j + 1, ir, v) && a[i] <= v && a[j] >= v
  {
    hide Rearranged, Parted;
    ghost var s := a[..];
    PartedStart(s, l, ir, v);
    i, j := l + 1, ir;
    while true
      invariant l + 1 <= i < ir && i <= j <= ir && l + 1 < j
      invariant Rearranged(s, a[..], l, ir)
      invariant Parted(a[..], l, i, j, ir, v)
      decreases j - i
    {
      ghost var t, i0, j0 := a[..], i, j;
      PartedEnds(t, l, i, j, ir, v);
      i := ScanUp(a, i, ir, v);
      j := ScanDown(a, l + 1, j, v);
      PartedGrows(t, l, i0, j0, i, j, ir, v);
      if j < i { break; }
      SwapStep(s, t, l, ir, i, j);
      Swap(a, i, j);
    }
  }

  /** Exchanging the pivot with the id at j completes the partition. */
  lemma PivotPlaced(s: seq<nat>, l: nat, i: nat, j: nat, ir: nat, v: nat)
    requires l + 1 <= j < i <= ir < |s| && Parted(s, l, i - 1, j + 1, ir, v) && s[i] <= v <= s[j]
    ensures s[l + 1] == v && Partitioned(s[l + 1 := s[j]][j := v], l, j, i, ir)
  {
  }

  method Partition(a: array<nat>, l: nat, k: nat, ir: nat) returns (i: nat, j: nat)
    requires l + 1 < k < ir < a.Length
    modifies a
    ensures Rearranged(old(a[..]), a[..], l, ir)
    ensures Partitioned(a[..], l, j, i, ir)
  {
    hide Rearranged, Parted, Partitioned;
    ghost var s := a[..];
    MedianOfThree(a, l, k, ir);
    ghost var t := a[..];
    var v := a[l + 1];
    i, j := SwapPairs(a, l, ir, v);
    ghost var u := a[..];
    RearrangedTwice(s, t, u, l, ir);
    PivotPlaced(u, l, i, j, ir, v);
    SwapStep(s, u, l, ir, l + 1, j);
    a[l + 1] := a[j];
    a[j] := v;
    assert a[..] == u[l + 1 := u[j]][j := v];
  }

  // ---- Segments still to be sorted ---------------------------------------------------------

  datatype Segment = Segment(lo: nat, hi: int) {
    function Size(): int { hi - lo + 1 }

    /** Position p lies strictly inside: a cut at p is not settled yet. */
    ghost predicate Holds(p: int) { lo < p <= hi }
  }

  function Pow2(k: nat): (r: nat)
    ensures r > 0
  {
    if k == 0 then 1 else 2 * Pow2(k - 1)
  }

  ghost predicate Apart(x: Segment, y: Segment) {
    x.hi < y.lo || y.hi < x.lo
  }

  /** A segment whose every id lies between the ids to its left and those to its right. */
  ghost predicate Settled(s: seq<nat>, b: nat, e: int, g: Segment) {
    b <= g.lo <= g.hi + 1 && g.hi <= e && Cut(s, b, e, g.lo) && Cut(s, b, e, g.hi + 1)
  }

  /**
   The segments still to be sorted, the current one last. They do not overlap, every cut
   outside them is settled, and the one at index q holds at most 1 / 2^q of the list.
   */
  ghost predicate Pending(s: seq<nat>, b: nat, e: int, gs: seq<Segment>) {
    && b <= e + 1 && e < |s|
    && (forall q :: 0 <= q < |gs| ==> Settled(s, b, e, gs[q]))
    && (forall q, r :: 0 <= q < r < |gs| ==> Apart(gs[q], gs[r]))
    && (forall p :: b < p <= e && (forall q :: 0 <= q < |gs| ==> !gs[q].Holds(p)) ==> Cut(s, b, e, p))
    && (forall q :: 0 <= q < |gs| ==> gs[q].Size() * Pow2(q) <= e - b + 1)
  }

  /** Rearranging the current segment settles nothing outside it and unsettles nothing. */
  lemma PendingElsewhere(s: seq<nat>, t: seq<nat>, b: nat, e: int, gs: seq<Segment>, g: Segment)
    requires Pending(s, b, e, gs + [g]) && Rearranged(s, t, g.lo, g.hi)
    ensures forall q :: 0 <= q < |gs| ==> Settled(t, b, e, gs[q])
    ensures Settled(t, b, e, g)
    ensures forall p :: b < p <= e && !g.Holds(p) && Cut(s, b, e, p) ==> Cut(t, b, e, p)
  {
    var all := gs + [g];
    assert all[|gs|] == g;
    forall q | 0 <= q < |gs| ensures Settled(t, b, e, gs[q]) {
      assert all[q] == gs[q] && Apart(all[q], all[|gs|]);
      CutKept(s, t, b, e, g.lo, g.hi, gs[q].lo);
      CutKept(s, t, b, e, g.lo, g.hi, gs[q].hi + 1);
    }
    CutKept(s, t, b, e, g.lo, g.hi, g.lo);
    CutKept(s, t, b, e, g.lo, g.hi, g.hi + 1);
    forall p | b < p <= e && !g.Holds(p) && Cut(s, b, e, p) ensures Cut(t, b, e, p) {
      CutKept(s, t, b, e, g.lo, g.hi, p);
    }
  }

  lemma PendingSorted(s: seq<nat>, t: seq<nat>, b: nat, e: int, gs: seq<Segment>, g: Segment)
    requires Pending(s, b, e, gs + [g]) && Rearranged(s, t, g.lo, g.hi)
    requires Descending(t[g.lo..g.hi + 1])
    ensures Pending(t, b, e, gs)
  {
    var all := gs + [g];
    PendingElsewhere(s, t, b, e, gs, g);
    forall q | 0 <= q < |gs| ensures gs[q] == all[q] { }
    assert all[|gs|] == g;
    forall p | b < p <= e && (forall q :: 0 <= q < |gs| ==> !gs[q].Holds(p)) ensures Cut(t, b, e, p) {
      if g.Holds(p) {
        CutInside(t, b, e, g, p);
      } else {
        assert forall q :: 0 <= q < |all| ==> !all[q].Holds(p);
      }
    }
  }

  lemma CutInside(t: seq<nat>, b: nat, e: int, g: Segment, p: int)
    requires e < |t| && Settled(t, b, e, g) && g.Holds(p)
    requires Descending(t[g.lo..g.hi + 1])
    ensures Cut(t, b, e, p)
  {
    var u := t[g.lo..g.hi + 1];
    forall x, y | b <= x < p && p <= y <= e ensures t[x] >= t[y] {
      if g.lo <= x && y <= g.hi {
        assert u[x - g.lo] >= u[y - g.lo];
      }
    }
  }

  lemma CutAtPivot(t: seq<nat>, b: nat, e: int, g: Segment, j: nat, i: nat, p: int)
    requires 0 <= g.hi && e < |t| && Settled(t, b, e, g) && Partitioned(t, g.lo, j, i, g.hi) && j <= p <= i
    ensures Cut(t, b, e, p)
  {
    forall x, y | b <= x < p && p <= y <= e ensures t[x] >= t[y] {
      if g.lo <= x && y <= g.hi {
        assert t[x] >= t[j] >= t[y];
      }
    }
  }

  function Larger(g: Segment, j: nat, i: nat): Segment
    requires g.lo < j
  {
    if g.hi - i + 1 >= j - g.lo then Segment(i, g.hi) else Segment(g.lo, j - 1)
  }

  function Smaller(g: Segment, j: nat, i: nat): Segment
    requires g.lo < j
  {
    if g.hi - i + 1 >= j - g.lo then Segment(g.lo, j - 1) else Segment(i, g.hi)
  }

  lemma HalfFits(small: nat, size: nat, m: nat, n: nat)
    requires 2 * small <= size && size * Pow2(m) <= n
    ensures small * Pow2(m + 1) <= n
  {
    assert small * Pow2(m + 1) == (2 * small) * Pow2(m) <= size * Pow2(m);
  }

  lemma PartsSettled(t: seq<nat>, b: nat, e: int, g: Segment, j: nat, i: nat)
    requires 0 <= g.hi && e < |t| && Settled(t, b, e, g) && Partitioned(t, g.lo, j, i, g.hi)
    ensures var large, small := Larger(g, j, i), Smaller(g, j, i);
            Settled(t, b, e, large) && Settled(t, b, e, small) && Apart(large, small)
  {
    CutAtPivot(t, b, e, g, j, i, j);
    CutAtPivot(t, b, e, g, j, i, i);
  }

  lemma PendingSplit(s: seq<nat>, t: seq<nat>, b: nat, e: int, gs: seq<Segment>, g: Segment, j: nat, i: nat)
    requires Pending(s, b, e, gs + [g]) && |s| == |t| && Rearranged(s, t, g.lo, g.hi)
    requires g.lo < j < i <= g.hi && Partitioned(t, g.lo, j, i, g.hi)
    ensures Pending(t, b, e, gs + [Larger(g, j, i)] + [Smaller(g, j, i)])
  {
    hide Cut, Rearranged, Partitioned, Settled, Apart, Pow2;
    var all := gs + [g];
    var large, small := Larger(g, j, i), Smaller(g, j, i);
    var parts := gs + [large] + [small];
    var m := |gs|;
    PendingElsewhere(s, t, b, e, gs, g);
    PartsSettled(t, b, e, g, j, i);
    forall q | 0 <= q < m ensures parts[q] == gs[q] == all[q] && Apart(gs[q], large) && Apart(gs[q], small) {
      assert Apart(all[q], all[m]);
      PartsApart(gs[q], g, j, i);
    }
    assert all[m] == g && parts[m] == large && parts[m + 1] == small;
    forall q, r | 0 <= q < r < m + 2 ensures Apart(parts[q], parts[r]) {
      if r < m { assert Apart(all[q], all[r]); }
    }
    forall p | b < p <= e && (forall q :: 0 <= q < |parts| ==> !parts[q].Holds(p)) ensures Cut(t, b, e, p) {
      assert !parts[m].Holds(p) && !parts[m + 1].Holds(p);
      assert forall q :: 0 <= q < m ==> !all[q].Holds(p);
      PendingSplitCut(s, t, b, e, gs, g, j, i, p);
    }
    PartSizes(gs, g, large, small, b, e);
  }

  lemma PartsApart(x: Segment, g: Segment, j: nat, i: nat)
    requires Apart(x, g) && g.lo < j < i <= g.hi
    ensures Apart(x, Larger(g, j, i)) && Apart(x, Smaller(g, j, i))
  {
  }

  lemma PendingSplitCut(s: seq<nat>, t: seq<nat>, b: nat, e: int, gs: seq<Segment>, g: Segment, j: nat, i: nat, p: int)
    requires Pending(s, b, e, gs + [g]) && Rearranged(s, t, g.lo, g.hi)
    requires 0 <= g.hi && Partitioned(t, g.lo, j, i, g.hi)
    requires b < p <= e && !Larger(g, j, i).Holds(p) && !Smaller(g, j, i).Holds(p)
    requires forall q :: 0 <= q < |gs| ==> !(gs + [g])[q].Holds(p)
    ensures Cut(t, b, e, p)
  {
    var all := gs + [g];
    assert all[|gs|] == g;
    PendingElsewhere(s, t, b, e, gs, g);
    if g.Holds(p) {
      CutAtPivot(t, b, e, g, j, i, p);
    } else {
      assert forall q :: 0 <= q < |all| ==> !all[q].Holds(p);
    }
  }

  lemma PartSizes(gs: seq<Segment>, g: Segment, large: Segment, small: Segment, b: nat, e: int)
    requires b <= e + 1
    requires forall q :: 0 <= q < |gs + [g]| ==> (gs + [g])[q].Size() * Pow2(q) <= e - b + 1
    requires 0 <= 2 * small.Size() <= g.Size() && large.Size() <= g.Size()
    ensures forall q :: 0 <= q < |gs| + 2 ==>
      (gs + [large] + [small])[q].Size() * Pow2(q) <= e - b + 1
  {
    var all := gs + [g];
    var parts := gs + [large] + [small];
    var m := |gs|;
    forall q | 0 <= q < m + 2 ensures parts[q].Size() * Pow2(q) <= e - b + 1 {
      assert all[m] == g;
      if q < m {
        assert parts[q] == all[q];
      } else if q == m {
        assert large.Size() * Pow2(m) <= g.Size() * Pow2(m);
      } else {
        HalfFits(small.Size(), g.Size(), m, e - b + 1);
      }
    }
  }

  /** A segment worth splitting leaves room for two more entries on the stack. */
  lemma StackHasRoom(m: nat, size: int, n: nat)
    requires size > SMALL && size * Pow2(m) <= n && n <= INT_MAX
    ensures m <= 30 && 2 * m + 2 < STACK_LENGTH
  {
    Pow2Large(m);
    TimesAtLeast(size, Pow2(m));
  }

  lemma TimesAtLeast(x: nat, y: nat)
    requires x > 0
    ensures x * y >= y
  {
  }

  lemma Pow2Large(m: nat)
    ensures m >= 31 ==> Pow2(m) > INT_MAX
  {
    assert Pow2(8) == 256 && Pow2(16) == 65536 && Pow2(24) == 16777216;
    assert Pow2(31) == INT_MAX + 1;
    if m >= 31 { Pow2AtLeast(31, m); }
  }

  lemma {:induction false} Pow2AtLeast(k: nat, m: nat)
    requires k <= m
    ensures Pow2(k) <= Pow2(m)
    decreases m - k
  {
    if k < m { Pow2AtLeast(k, m - 1); }
  }

  ghost function Weight(gs: seq<Segment>): nat {
    if gs == [] then 0
    else
      var g := gs[|gs| - 1];
      Weight(gs[..|gs| - 1]) + (if g.Size() >= 0 then 2 * g.Size() + 1 else 0)
  }

  lemma PendingStart(s: seq<nat>, b: nat, e: int)
    requires b <= e + 1 && e < |s|
    ensures Pending(s, b, e, [Segment(b, e)])
  {
    assert Segment(b, e).Size() * Pow2(0) == e - b + 1;
    var gs := [Segment(b, e)];
    assert Settled(s, b, e, gs[0]);
    assert forall p :: b < p <= e ==> gs[0].Holds(p);
  }

  lemma PendingNone(s: seq<nat>, b: nat, e: int)
    requires Pending(s, b, e, [])
    ensures Descending(s[b..e + 1])
  {
    var u := s[b..e + 1];
    forall x, y | 0 <= x < y < |u| ensures u[x] >= u[y] {
      assert Cut(s, b, e, b + y);
      assert s[b + x] >= s[b + y];
    }
  }

  /** The stack array holds the waiting segments, each as a low and a high position. */
  ghost predicate Stacked(st: seq<int>, gs: seq<Segment>, o: nat) {
    && |st| == STACK_LENGTH && 2 * |gs| < STACK_LENGTH
    && (forall q :: 0 <= q < |gs| ==> st[2 * q + 1] == gs[q].lo - o && st[2 * q + 2] == gs[q].hi - o)
  }

  lemma CurrentSegment(s: seq<nat>, b: nat, e: int, gs: seq<Segment>, g: Segment)
    requires Pending(s, b, e, gs + [g])
    ensures Settled(s, b, e, g) && g.Size() * Pow2(|gs|) <= e - b + 1
  {
    assert (gs + [g])[|gs|] == g;
  }

  lemma WholeRearranged(s: seq<nat>, t: seq<nat>, u: seq<nat>, b: nat, e: int, g: Segment)
    requires Rearranged(s, t, b, e) && Rearranged(t, u, g.lo, g.hi) && b <= g.lo && g.hi <= e
    ensures Rearranged(s, u, b, e)
  {
    RearrangedWider(t, u, g.lo, g.hi, b, e);
    RearrangedTwice(s, t, u, b, e);
  }

  /** Insertion-sort the current segment; it needs no further work. */
  method FinishSegment(a: array<nat>, b: nat, ghost e: int, l: nat, ir: int, ghost start: seq<nat>, ghost gs: seq<Segment>)
    requires 0 < b && e < a.Length
    requires Pending(a[..], b, e, gs + [Segment(l, ir)]) && Rearranged(start, a[..], b, e)
    modifies a
    ensures Pending(a[..], b, e, gs) && Rearranged(start, a[..], b, e)
  {
    ghost var s := a[..];
    ghost var g := Segment(l, ir);
    CurrentSegment(s, b, e, gs, g);
    InsertionPass(a, b, l, ir);
    PendingSorted(s, a[..], b, e, gs, g);
    WholeRearranged(start, s, a[..], b, e, g);
  }

  /** Partition the current segment into two that both still need work. */
  method SplitSegment(a: array<nat>, ghost b: nat, ghost e: int, l: nat, k: nat, ir: nat, ghost start: seq<nat>,
                      ghost gs: seq<Segment>)
    returns (i: nat, j: nat)
    requires e < a.Length && l + 1 < k < ir
    requires Pending(a[..], b, e, gs + [Segment(l, ir)]) && Rearranged(start, a[..], b, e)
    modifies a
    ensures l < j < i <= ir
    ensures Rearranged(start, a[..], b, e)
    ensures Pending(a[..], b, e, gs + [Larger(Segment(l, ir), j, i)] + [Smaller(Segment(l, ir), j, i)])
  {
    ghost var s := a[..];
    ghost var g := Segment(l, ir);
    CurrentSegment(s, b, e, gs, g);
    i, j := Partition(a, l, k, ir);
    PendingSplit(s, a[..], b, e, gs, g, j, i);
    WholeRearranged(start, s, a[..], b, e, g);
  }

  /** Put the larger part of a split on the stack and go on with the smaller one. */
  method PushLarger(istack: array<int>, jstack0: nat, l0: nat, ir0: nat, i: nat, j: nat,
                    ghost gs: seq<Segment>, ghost o: nat)
    returns (jstack: nat, l: nat, ir: int)
    requires jstack0 == 2 * |gs| && Stacked(istack[..], gs, o)
    requires 2 * |gs| + 2 < STACK_LENGTH && l0 < j < i <= ir0
    modifies istack
    ensures jstack == 2 * |gs| + 2
    ensures Stacked(istack[..], gs + [Larger(Segment(o + l0, o + ir0), o + j, o + i)], o)
    ensures 1 <= l0 ==> 1 <= l <= ir + 1 && ir <= ir0
    ensures Segment(o + l, o + ir) == Smaller(Segment(o + l0, o + ir0), o + j, o + i)
  {
    jstack, l, ir := jstack0 + 2, l0, ir0;
    if ir - i + 1 >= j - l {
      istack[jstack] := ir;
      istack[jstack - 1] := i;
      ir := j - 1;
    } else {
      istack[jstack] := j - 1;
      istack[jstack - 1] := l;
      l := i;
    }
  }

  lemma WeightOfSplit(gs: seq<Segment>, g: Segment, j: nat, i: nat)
    requires g.lo < j < i <= g.hi
    ensures Weight(gs + [Larger(g, j, i)] + [Smaller(g, j, i)]) < Weight(gs + [g])
  {
    var two := gs + [Larger(g, j, i)] + [Smaller(g, j, i)];
    assert two[..|gs| + 1] == gs + [Larger(g, j, i)];
    assert (gs + [Larger(g, j, i)])[..|gs|] == gs == (gs + [g])[..|gs|];
  }

  lemma WeightOfRest(gs: seq<Segment>, g: Segment)
    requires g.lo <= g.hi + 1
    ensures Weight(gs) < Weight(gs + [g])
  {
    assert (gs + [g])[..|gs|] == gs;
  }

  lemma StackTop(st: seq<int>, s: seq<nat>, b: nat, e: int, gs: seq<Segment>, o: nat)
    requires Stacked(st, gs, o) && |gs| > 0 && b == o + 1 && e >= o && Pending(s, b, e, gs)
    ensures 2 * |gs| < |st|
    ensures var top := 2 * |gs|; 1 <= st[top - 1] <= st[top] + 1 && st[top] <= e - o
    ensures gs == gs[..|gs| - 1] + [Segment(o + st[2 * |gs| - 1], o + st[2 * |gs|])]
    ensures Stacked(st, gs[..|gs| - 1], o)
  {
    var m := |gs| - 1;
    assert st[2 * m + 1] == gs[m].lo - o && st[2 * m + 2] == gs[m].hi - o;
    assert Settled(s, b, e, gs[m]);
  }

  /** What the main loop keeps: `s` is the array, `st` the stack, l..ir the current segment. */
  ghost predicate Sorting(s: seq<nat>, st: seq<int>, start: seq<nat>, o: nat, n: nat, gs: seq<Segment>, jstack: nat, l: nat, ir: int) {
    && 1 <= l <= ir + 1 && ir <= n && jstack == 2 * |gs| && o + n < |s|
    && Rearranged(start, s, o + 1, o + n)
    && Stacked(st, gs, o)
    && Pending(s, o + 1, o + n, gs + [Segment(o + l, o + ir)])
  }

  /** Finish the current segment and take the next one off the stack, unless it is empty. */
  method SortAndPop(a: array<nat>, istack: array<int>, jstack0: nat, l0: nat, ir0: int, ghost start: seq<nat>, o: nat, ghost n: nat,
                    ghost gs0: seq<Segment>)
    returns (done: bool, jstack: nat, l: nat, ir: int, ghost gs: seq<Segment>)
    requires Sorting(a[..], istack[..], start, o, n, gs0, jstack0, l0, ir0)
    modifies a
    ensures !done ==> Sorting(a[..], istack[..], start, o, n, gs, jstack, l, ir)
    ensures !done ==> Weight(gs + [Segment(o + l, o + ir)]) < Weight(gs0 + [Segment(o + l0, o + ir0)])
    ensures done ==> Rearranged(start, a[..], o + 1, o + n) && Pending(a[..], o + 1, o + n, [])
  {
    hide Pending, Rearranged, Stacked;
    done, jstack, l, ir, gs := true, jstack0, l0, ir0, gs0;
    WeightOfRest(gs, Segment(o + l, o + ir));
    FinishSegment(a, o + 1, o + n, o + l, o + ir, start, gs);
    if jstack != 0 {
      StackTop(istack[..], a[..], o + 1, o + n, gs, o);
      done := false;
      ir := istack[jstack];
      l := istack[jstack - 1];
      jstack := jstack - 2;
      gs := gs[..|gs| - 1];
    }
  }

  /** Split the current segment, stack the larger part and go on with the smaller one. */
  method SplitAndPush(a: array<nat>, istack: array<int>, jstack0: nat, l0: nat, ir0: nat, ghost start: seq<nat>, o: nat, ghost n: nat,
                      ghost gs0: seq<Segment>)
    returns (jstack: nat, l: nat, ir: int, ghost gs: seq<Segment>)
    requires Sorting(a[..], istack[..], start, o, n, gs0, jstack0, l0, ir0)
    requires ir0 - l0 >= SMALL && 2 * n <= INT_MAX && a as object != istack as object
    modifies a, istack
    ensures Sorting(a[..], istack[..], start, o, n, gs, jstack, l, ir)
    ensures Weight(gs + [Segment(o + l, o + ir)]) < Weight(gs0 + [Segment(o + l0, o + ir0)])
  {
    hide Pending, Rearranged, Stacked, Settled;
    ghost var g := Segment(o + l0, o + ir0);
    CurrentSegment(a[..], o + 1, o + n, gs0, g);
    assert l0 + ir0 <= INT_MAX;
    StackHasRoom(|gs0|, g.Size(), n);
    var i, j := SplitSegment(a, o + 1, o + n, o + l0, o + (l0 + ir0) / 2, o + ir0, start, gs0);
    WeightOfSplit(gs0, g, j, i);
    jstack, l, ir := PushLarger(istack, jstack0, l0, ir0, i - o, j - o, gs0, o);
    gs := gs0 + [Larger(g, j, i)];
  }

  lemma SortingStarts(s: seq<nat>, st: seq<int>, o: nat, n: nat)
    requires o + n < |s| && |st| == STACK_LENGTH
    ensures Sorting(s, st, s, o, n, [], 0, 1, n)
  {
    PendingStart(s, o + 1, o + n);
    assert [] + [Segment(o + 1, o + n)] == [Segment(o + 1, o + n)];
  }

  lemma SortingSegment(s: seq<nat>, st: seq<int>, start: seq<nat>, o: nat, n: nat, gs: seq<Segment>, jstack: nat, l: nat, ir: int)
    requires Sorting(s, st, start, o, n, gs, jstack, l, ir)
    ensures 1 <= l <= ir + 1
  {
  }

  lemma SortingEnds(start: seq<nat>, s: seq<nat>, o: nat, n: nat)
    requires Rearranged(start, s, o + 1, o + n) && Pending(s, o + 1, o + n, [])
    ensures o + n < |s| == |start| && s[o] == start[o] && Descending(s[o + 1..o + 1 + n])
  {
    PendingNone(s, o + 1, o + n);
    assert s[..o + 1][o] == start[..o + 1][o];
  }

  /** mdb_midl_sort on the list that starts at slot `o` of `a`. */
  method Sort(a: array<nat>, o: nat)
    requires IsList(a, o) && 2 * a[o] <= INT_MAX
    modifies a
    ensures a[o] == old(a[o]) && Descending(a[..][o + 1..o + 1 + a[o]])
    ensures Rearranged(old(a[..]), a[..], o + 1, o + a[o])
  {
    hide Sorting, Rearranged, Pending, Weight;
    ghost var start := a[..];
    ghost var n := a[o];
    var istack := new int[STACK_LENGTH];
    var ir: int, l: nat, jstack: nat := a[o], 1, 0;
    ghost var gs: seq<Segment> := [];
    SortingStarts(start, istack[..], o, n);
    while true
      invariant Sorting(a[..], istack[..], start, o, n, gs, jstack, l, ir)
      decreases Weight(gs + [Segment(o + l, o + ir)])
    {
      SortingSegment(a[..], istack[..], start, o, n, gs, jstack, l, ir);
      if ir - l < SMALL {
        var done;
        done, jstack, l, ir, gs := SortAndPop(a, istack, jstack, l, ir, start, o, n, gs);
        if done { break; }
      } else {
        jstack, l, ir, gs := SplitAndPush(a, istack, jstack, l, ir, start, o, n, gs);
      }
    }
    SortingEnds(start, a[..], o, n);
  }
}
