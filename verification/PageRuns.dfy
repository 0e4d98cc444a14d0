/**
 Runs of consecutive pages in the reclaimed list `me_pghead`: the search and removal done by
 mdb_page_alloc (mdb.c:2006-2018, 2110-2114) and the return of a dirty overflow run done by
 mdb_ovpage_free (mdb.c:5237-5244).
 */
module PageRuns {
  import opened IdList
  import IdBlock

  /** The `num` ids that end at list position `i` (counted from 1) are consecutive. */
  ghost predicate RunEndsAt(s: seq<nat>, i: nat, num: nat) {
    0 < num <= i <= |s| && s[i - num] == s[i - 1] + (num - 1)
  }

  /** The pages p .. p + num - 1 are all free. */
  ghost predicate AllFree(s: seq<nat>, p: nat, num: nat) {
    forall k :: p <= k < p + num ==> k in s
  }

  lemma {:induction false} DescendingGap(s: seq<nat>, x: nat, y: nat)
    requires StrictlyDescending(s) && x <= y < |s|
    ensures s[x] >= s[y] + (y - x)
    decreases y - x
  {
    if x < y {
      DescendingGap(s, x + 1, y);
    }
  }

  /** The ids of a run are exactly the pages from its lowest id up. */
  lemma RunIds(s: seq<nat>, i: nat, num: nat)
    requires StrictlyDescending(s) && RunEndsAt(s, i, num)
    ensures s[i - num..i] == IdBlock.DescRange(s[i - 1], num)
  {
    forall y | i - num <= y < i ensures s[y] == s[i - 1] + (i - 1 - y) {
      DescendingGap(s, i - num, y);
      DescendingGap(s, y, i - 1);
    }
  }

  lemma {:induction false} ConsecutivePositions(s: seq<nat>, p: nat, num: nat, q: nat, k: nat)
    requires StrictlyDescending(s) && AllFree(s, p, num) && q < |s| && s[q] == p && k < num
    ensures k <= q && s[q - k] == p + k
    decreases k
  {
    if k > 0 {
      ConsecutivePositions(s, p, num, q, k - 1);
      assert p + k in s;
      var x :| 0 <= x < |s| && s[x] == p + k;
      assert x < q - (k - 1);
      assert s[q - k] > s[q - k + 1];
    }
  }

  /** A run is found by looking at its two ends exactly when all its pages are free. */
  lemma RunIffAllFree(s: seq<nat>, num: nat)
    requires StrictlyDescending(s) && num > 0
    ensures (exists i :: RunEndsAt(s, i, num)) <==> (exists p :: AllFree(s, p, num))
  {
    if i: nat :| RunEndsAt(s, i, num) {
      RunIds(s, i, num);
      var p := s[i - 1];
      forall k | p <= k < p + num ensures k in s {
        assert s[i - num..i][p + num - 1 - k] == k;
      }
      assert AllFree(s, p, num);
    }
    if p: nat :| AllFree(s, p, num) {
      assert p in s;
      var q :| 0 <= q < |s| && s[q] == p;
      ConsecutivePositions(s, p, num, q, num - 1);
      assert RunEndsAt(s, q + 1, num);
    }
  }

  lemma RunBounds(s: seq<nat>, i: nat, num: nat)
    requires RunEndsAt(s, i, num)
    ensures 0 < num <= i <= |s|
  {
  }

  /** The list without the run that ends at position i. */
  function Without(s: seq<nat>, i: nat, num: nat): seq<nat>
    requires num <= i <= |s|
  {
    s[..i - num] + s[i..]
  }

  /** How many ids from the front are not below `pg`, found from the small end. */
  function Above(s: seq<nat>, pg: nat): (q: nat)
    ensures q <= |s|
    ensures q > 0 ==> s[q - 1] >= pg
    ensures forall x :: q <= x < |s| ==> s[x] < pg
  {
    if s == [] then 0
    else if s[|s| - 1] < pg then Above(s[..|s| - 1], pg)
    else |s|
  }

  lemma AboveUnique(s: seq<nat>, pg: nat, q: nat)
    requires q <= |s| && (q > 0 ==> s[q - 1] >= pg)
    requires forall x :: q <= x < |s| ==> s[x] < pg
    ensures Above(s, pg) == q
  {
  }

  /** The list with pages pg .. pg + num - 1 put back in their place. */
  function With(s: seq<nat>, pg: nat, num: nat): seq<nat> {
    s[..Above(s, pg)] + IdBlock.DescRange(pg, num) + s[Above(s, pg)..]
  }

  /** Taking a run out and putting the same pages back restores the list exactly. */
  lemma RunRestored(s: seq<nat>, i: nat, num: nat)
    requires StrictlyDescending(s) && RunEndsAt(s, i, num)
    ensures With(Without(s, i, num), s[i - 1], num) == s
  {
    hide Above, With, StrictlyDescending, RunEndsAt;
    RunBounds(s, i, num);
    var pg := s[i - 1];
    var t := Without(s, i, num);
    RunIds(s, i, num);
    AboveGap(s, i, num);
    WithAt(t, pg, num, i - num);
    assert t[..i - num] == s[..i - num] && t[i - num..] == s[i..];
    assert s == s[..i - num] + s[i - num..i] + s[i..];
  }

  /** The gap a run leaves is where its lowest page belongs. */
  lemma AboveGap(s: seq<nat>, i: nat, num: nat)
    requires StrictlyDescending(s) && RunEndsAt(s, i, num)
    ensures Above(Without(s, i, num), s[i - 1]) == i - num
  {
    hide Above;
    var t := Without(s, i, num);
    assert forall x :: i - num <= x < |t| ==> t[x] == s[x + num];
    assert i > num ==> t[i - num - 1] == s[i - num - 1];
    AboveUnique(t, s[i - 1], i - num);
  }

  lemma WithAt(s: seq<nat>, pg: nat, num: nat, q: nat)
    requires q <= |s| && Above(s, pg) == q
    ensures With(s, pg, num) == s[..q] + IdBlock.DescRange(pg, num) + s[q..]
  {
  }

  /** Returning pages that are not in the list keeps it strictly descending and loses nothing. */
  lemma WithIsUnion(s: seq<nat>, pg: nat, num: nat)
    requires StrictlyDescending(s)
    requires forall x :: 0 <= x < |s| ==> !(pg <= s[x] < pg + num)
    ensures StrictlyDescending(With(s, pg, num))
    ensures forall p :: p in With(s, pg, num) <==> p in s || pg <= p < pg + num
  {
    var q := Above(s, pg);
    var d := IdBlock.DescRange(pg, num);
    var t := With(s, pg, num);
    assert forall x :: 0 <= x < q ==> s[x] >= s[q - 1];
    assert t == s[..q] + d + s[q..];
    forall p ensures p in t <==> p in s || pg <= p < pg + num {
      assert s == s[..q] + s[q..];
      if pg <= p < pg + num { assert d[pg + num - 1 - p] == p; }
    }
  }

  /** The search loop of mdb_page_alloc, from the small end; 0 when there is no run. */
  method FindRun(mop: array<nat>, num: nat) returns (i: nat)
    requires IsList(mop, 0) && num > 0
    ensures i > 0 ==> RunEndsAt(List(mop, 0), i, num)
    ensures forall x :: x > i ==> !RunEndsAt(List(mop, 0), x, num)
  {
    var n2 := num - 1;
    ghost var s := List(mop, 0);
    if mop[0] <= n2 { return 0; }
    i := mop[0];
    while i > n2
      invariant n2 <= i <= mop[0]
      invariant forall x :: x > i ==> !RunEndsAt(s, x, num)
    {
      if mop[i - n2] == mop[i] + n2 {
        assert s[i - num] == mop[i - n2];
        return;
      }
      i := i - 1;
    }
    i := 0;
  }

  /** Shorten the list by the run that ends at i, moving the stragglers down. */
  method TakeRun(mop: array<nat>, i: nat, num: nat)
    requires IsList(mop, 0) && 0 < num <= i <= mop[0]
    modifies mop
    ensures IsList(mop, 0) && List(mop, 0) == Without(old(List(mop, 0)), i, num)
  {
    ghost var s := List(mop, 0);
    var len := mop[0] - num;
    mop[0] := len;
    var from, j := i, i - num;
    while j < len
      invariant from == j + num && i - num <= j <= len
      invariant mop[0] == len
      invariant forall x :: 1 <= x <= i - num ==> mop[x] == s[x - 1]
      invariant forall x :: i - num < x <= j ==> mop[x] == s[x + num - 1]
      invariant forall x :: from < x <= |s| ==> mop[x] == s[x - 1]
    {
      j, from := j + 1, from + 1;
      mop[j] := mop[from];
    }
    assert List(mop, 0) == Without(s, i, num);
  }

  /** Block `t` holds the first i ids of `s` in place and the others `num` slots up. */
  ghost predicate Opened(t: seq<nat>, s: seq<nat>, i: nat, num: nat) {
    && i <= |s| && |s| + num < |t| && t[0] == |s|
    && (forall x :: 1 <= x <= i ==> t[x] == s[x - 1])
    && (forall x :: i + num < x <= |s| + num ==> t[x] == s[x - num - 1])
  }

  /** Shift the ids below `pg` up by `num` slots; returns how many ids stay where they are. */
  method OpenGap(mop: array<nat>, pg: nat, num: nat, ghost s: seq<nat>) returns (i: nat)
    requires num > 0 && Opened(mop[..], s, |s|, num)
    modifies mop
    ensures i == Above(s, pg) && Opened(mop[..], s, i, num)
  {
    i := mop[0];
    while i > 0 && mop[i] < pg
      invariant i <= |s| && Opened(mop[..], s, i, num)
      invariant forall x :: i <= x < |s| ==> s[x] < pg
    {
      mop[i + num] := mop[i];
      i := i - 1;
    }
    AboveUnique(s, pg, i);
  }

  /** Fill slots i + 1 .. i + num with pg + num - 1 down to pg, from the high slot down. */
  method FillGap(mop: array<nat>, i: nat, pg: nat, num: nat)
    requires i + num < mop.Length
    modifies mop
    ensures mop[i + 1..i + num + 1] == IdBlock.DescRange(pg, num)
    ensures forall x :: 0 <= x <= i || i + num < x < mop.Length ==> mop[x] == old(mop[x])
  {
    var j, next := i + num, pg;
    while j > i
      invariant i <= j <= i + num && next == pg + (i + num - j)
      invariant forall x :: j < x <= i + num ==> mop[x] == pg + (i + num - x)
      invariant forall x :: 0 <= x <= i || i + num < x < mop.Length ==> mop[x] == old(mop[x])
    {
      mop[j] := next;
      j, next := j - 1, next + 1;
    }
  }

  /** Put a run of pages back where it belongs (mdb_ovpage_free). */
  method PutRun(mop: array<nat>, pg: nat, num: nat)
    requires IsList(mop, 0) && num > 0 && mop[0] + num < mop.Length
    modifies mop
    ensures IsList(mop, 0) && List(mop, 0) == With(old(List(mop, 0)), pg, num)
  {
    ghost var s := List(mop, 0);
    var i := OpenGap(mop, pg, num, s);
    ghost var t := mop[..];
    FillGap(mop, i, pg, num);
    mop[0] := mop[0] + num;
    GapFilled(t, mop[..], s, i, num, IdBlock.DescRange(pg, num));
    assert List(mop, 0) == mop[..][1..|s| + num + 1];
  }

  lemma GapFilled(t: seq<nat>, u: seq<nat>, s: seq<nat>, i: nat, num: nat, d: seq<nat>)
    requires |t| == |u| && Opened(t, s, i, num)
    requires |d| == num && u[i + 1..i + num + 1] == d
    requires forall x :: 0 < x <= i || i + num < x < |t| ==> u[x] == t[x]
    ensures u[1..|s| + num + 1] == s[..i] + d + s[i..]
  {
    var w := u[1..|s| + num + 1];
    assert forall x :: 0 <= x < i ==> w[x] == s[x];
    forall x | i <= x < i + num ensures w[x] == d[x - i] {
      assert u[i + 1..i + num + 1][x - i] == u[x + 1];
    }
    assert forall x :: i + num <= x < |w| ==> w[x] == s[x - num];
    assert w == s[..i] + d + s[i..];
  }
}
