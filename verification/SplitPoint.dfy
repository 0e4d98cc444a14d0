/**
 Where mdb_page_split divides the nodes of a full page (mdb.c:7951, 8036-8066), and when both
 halves then fit on a page.

 `sizes` are the space taken by the nodes of the page with the new one inserted at `newindx`.
 */
module SplitPoint {
  import opened BTree

  /** The node sizes are looked at only if nodes may be large, or the new one goes last. */
  predicate Scans(sizes: seq<int>, newindx: nat, pmax: int)
    requires newindx < |sizes|
  {
    |sizes| - 1 < 20 || sizes[newindx] > pmax / 16 || newindx >= |sizes| - 1
  }

  function Midpoint(sizes: seq<int>): int { |sizes| / 2 }

  /** The scan from the left: stop where the page overflows, at the latest at k - 1. */
  function FromLeft(sizes: seq<int>, i: nat, k: nat, psize: int, pmax: int): (s: nat)
    requires i < k <= |sizes|
    ensures i <= s < k
    decreases k - i
  {
    if psize + sizes[i] > pmax || i == k - 1 then i else FromLeft(sizes, i + 1, k, psize + sizes[i], pmax)
  }

  /** The scan from the right: stop where the page overflows, at the latest at k + 1. */
  function FromRight(sizes: seq<int>, i: nat, k: int, psize: int, pmax: int): (s: nat)
    requires -1 <= k < i < |sizes|
    ensures k + 1 < s <= i + 1
    decreases i - k
  {
    if psize + sizes[i] > pmax || i == k + 1 then i + 1 else FromRight(sizes, i - 1, k, psize + sizes[i], pmax)
  }

  /** The index of the first node that goes to the new right page. */
  function SplitIndex(sizes: seq<int>, newindx: nat, pmax: int): (s: nat)
    requires |sizes| >= 3 && newindx < |sizes|
    ensures s <= |sizes|
  {
    var nkeys := |sizes| - 1;
    var mid := Midpoint(sizes);
    if !Scans(sizes, newindx, pmax) then mid
    else if newindx <= mid || newindx >= nkeys then
      FromLeft(sizes, 0, if newindx >= nkeys then nkeys else mid + 2, 0, pmax)
    else FromRight(sizes, nkeys, mid - 1, 0, pmax)
  }

  /** The loop of mdb_page_split that finds the split point. */
  method FindSplit(sizes: seq<int>, newindx: nat, pmax: int) returns (split: nat)
    requires |sizes| >= 3 && newindx < |sizes|
    ensures split == SplitIndex(sizes, newindx, pmax)
  {
    var nkeys := |sizes| - 1;
    split := (nkeys + 1) / 2;
    if nkeys < 20 || sizes[newindx] > pmax / 16 || newindx >= nkeys {
      var psize := 0;
      var i, j, k: int;
      if newindx <= split || newindx >= nkeys {
        i, j := 0, 1;
        k := if newindx >= nkeys then nkeys else split + 2;
      } else {
        i, j := nkeys, -1;
        k := split - 1;
      }
      ghost var result := SplitIndex(sizes, newindx, pmax);
      while i != k
        invariant j == 1 || j == -1
        invariant j == 1 ==> 0 <= i < k <= |sizes| && result == FromLeft(sizes, i, k, psize, pmax)
        invariant j == -1 ==> -1 <= k < i < |sizes| && result == FromRight(sizes, i, k, psize, pmax)
        decreases if j == 1 then k - i else i - k
      {
        psize := psize + sizes[i];
        if psize > pmax || i == k - j {
          split := if j < 0 then i + 1 else i;
          break;
        }
        i := i + j;
      }
    }
  }

  // ---- Both halves fit -----------------------------------------------------------------------

  lemma SumStep(ns: seq<int>, i: nat)
    requires i < |ns|
    ensures Sum(ns[..i + 1]) == Sum(ns[..i]) + ns[i]
    ensures Sum(ns[i..]) == ns[i] + Sum(ns[i + 1..])
  {
    assert ns[..i + 1] == ns[..i] + [ns[i]];
    SumAppend(ns[..i], [ns[i]]);
    assert [ns[i]][1..] == [];
    assert ns[i..][1..] == ns[i + 1..];
  }

  lemma SumNone(ns: seq<int>)
    ensures Sum(ns[..0]) == 0 && Sum(ns[|ns|..]) == 0
  {
    assert ns[..0] == [] && ns[|ns|..] == [];
  }

  lemma SumParts(ns: seq<int>, i: nat)
    requires i <= |ns|
    ensures Sum(ns) == Sum(ns[..i]) + Sum(ns[i..])
  {
    assert ns == ns[..i] + ns[i..];
    SumAppend(ns[..i], ns[i..]);
  }

  lemma {:induction false} SumHolds(ns: seq<int>, x: nat)
    requires x < |ns| && forall i :: 0 <= i < |ns| ==> ns[i] >= 0
    ensures Sum(ns) >= ns[x]
    ensures Sum(ns) >= 0
  {
    if |ns| > 1 {
      var rest := ns[1..];
      assert forall i :: 0 <= i < |rest| ==> rest[i] == ns[i + 1];
      SumHolds(rest, if x > 0 then x - 1 else 0);
    } else {
      assert ns[1..] == [];
    }
  }

  lemma {:induction false} FromLeftSum(sizes: seq<int>, i: nat, k: nat, pmax: int)
    requires i < k <= |sizes| && Sum(sizes[..i]) <= pmax
    ensures var s := FromLeft(sizes, i, k, Sum(sizes[..i]), pmax);
            && Sum(sizes[..s]) <= pmax
            && (Sum(sizes[..s + 1]) > pmax || s == k - 1)
    decreases k - i
  {
    hide Sum;
    SumStep(sizes, i);
    if !(Sum(sizes[..i + 1]) > pmax || i == k - 1) { FromLeftSum(sizes, i + 1, k, pmax); }
  }

  lemma {:induction false} FromRightSum(sizes: seq<int>, i: nat, k: int, pmax: int)
    requires -1 <= k < i < |sizes| && Sum(sizes[i + 1..]) <= pmax
    ensures var s := FromRight(sizes, i, k, Sum(sizes[i + 1..]), pmax);
            && Sum(sizes[s..]) <= pmax
            && (Sum(sizes[s - 1..]) > pmax || s == k + 2)
    decreases i - k
  {
    hide Sum;
    SumStep(sizes, i);
    if !(Sum(sizes[i..]) > pmax || i == k + 1) { FromRightSum(sizes, i - 1, k, pmax); }
  }

  /** A page's old nodes fit on it, no node takes more than half a page. */
  ghost predicate Splittable(sizes: seq<int>, newindx: nat, pmax: int) {
    && |sizes| >= 3 && newindx < |sizes|
    && (forall i :: 0 <= i < |sizes| ==> 0 < sizes[i] && 2 * sizes[i] <= pmax)
    && Sum(sizes) - sizes[newindx] <= pmax
  }

  predicate HalvesFit(sizes: seq<int>, s: nat, pmax: int) {
    0 < s < |sizes| && Sum(sizes[..s]) <= pmax && Sum(sizes[s..]) <= pmax
  }

  /** The part of the page without the new node is no larger than the old page. */
  lemma OldPart(sizes: seq<int>, newindx: nat, s: nat, pmax: int)
    requires Splittable(sizes, newindx, pmax) && 0 < s < |sizes|
    ensures newindx < s ==> Sum(sizes[s..]) <= pmax
    ensures newindx >= s ==> Sum(sizes[..s]) <= pmax
  {
    SumParts(sizes, s);
    if newindx < s { SumHolds(sizes[..s], newindx); } else { SumHolds(sizes[s..], newindx - s); }
  }

  /** What remains beside a part that overflows with one more node is at most two nodes more. */
  lemma OverflowingPart(sizes: seq<int>, newindx: nat, x: nat, pmax: int)
    requires Splittable(sizes, newindx, pmax) && x < |sizes|
    ensures Sum(sizes[..x + 1]) > pmax ==> Sum(sizes[x..]) <= pmax
    ensures Sum(sizes[x..]) > pmax ==> Sum(sizes[..x + 1]) <= pmax
  {
    SumStep(sizes, x);
    SumParts(sizes, x);
  }

  /** If the scan runs, both halves are non-empty and fit. */
  lemma ScanFits(sizes: seq<int>, newindx: nat, pmax: int)
    requires Splittable(sizes, newindx, pmax) && Scans(sizes, newindx, pmax)
    ensures HalvesFit(sizes, SplitIndex(sizes, newindx, pmax), pmax)
  {
    var nkeys, mid := |sizes| - 1, Midpoint(sizes);
    if newindx >= nkeys {
      assert sizes[..0] == [];
      FromLeftSum(sizes, 0, nkeys, pmax);
      LastTwo(sizes, newindx, FromLeft(sizes, 0, newindx, 0, pmax), pmax);
    } else if newindx <= mid {
      LeftScanFits(sizes, newindx, FromLeft(sizes, 0, mid + 2, 0, pmax), pmax);
    } else {
      RightScanFits(sizes, newindx, FromRight(sizes, nkeys, mid - 1, 0, pmax), pmax);
    }
  }

  lemma RoomForOne(sizes: seq<int>, newindx: nat, x: nat, pmax: int)
    requires Splittable(sizes, newindx, pmax) && x < |sizes|
    ensures 0 < sizes[x] <= pmax
  {
  }

  lemma LeftScanFits(sizes: seq<int>, newindx: nat, s: nat, pmax: int)
    requires Splittable(sizes, newindx, pmax) && newindx <= Midpoint(sizes)
    requires s == FromLeft(sizes, 0, Midpoint(sizes) + 2, 0, pmax)
    ensures HalvesFit(sizes, s, pmax)
  {
    hide Sum, FromLeft;
    SumNone(sizes);
    FromLeftSum(sizes, 0, Midpoint(sizes) + 2, pmax);
    OverflowingPart(sizes, newindx, s, pmax);
    SumStep(sizes, 0);
    OldPart(sizes, newindx, Midpoint(sizes) + 1, pmax);
  }

  lemma RightScanFits(sizes: seq<int>, newindx: nat, s: nat, pmax: int)
    requires |sizes| >= 3 && Splittable(sizes, newindx, pmax) && Midpoint(sizes) < newindx < |sizes|
    requires s == FromRight(sizes, |sizes| - 1, Midpoint(sizes) - 1, 0, pmax)
    ensures HalvesFit(sizes, s, pmax)
  {
    hide Splittable, Sum, FromRight;
    var nkeys := |sizes| - 1;
    SumNone(sizes);
    SumStep(sizes, nkeys);
    RoomForOne(sizes, newindx, nkeys, pmax);
    FromRightSum(sizes, nkeys, Midpoint(sizes) - 1, pmax);
    OverflowingPart(sizes, newindx, s - 1, pmax);
    OldPart(sizes, newindx, Midpoint(sizes) + 1, pmax);
  }

  /** A new last node: the old nodes fit, so the scan stops before the last of them. */
  lemma LastTwo(sizes: seq<int>, newindx: nat, s: nat, pmax: int)
    requires Splittable(sizes, newindx, pmax) && newindx == |sizes| - 1
    requires s == FromLeft(sizes, 0, newindx, 0, pmax)
    requires Sum(sizes[..s + 1]) > pmax || s == newindx - 1
    ensures HalvesFit(sizes, s, pmax)
  {
    var n := newindx;
    SumParts(sizes, n);
    SumParts(sizes[..n], s + 1);
    assert sizes[n..][1..] == [] && sizes[..n][..s + 1] == sizes[..s + 1];
    if s + 1 < n { SumHolds(sizes[..n][s + 1..], 0); }
    SumStep(sizes, n - 1);
    SumStep(sizes, n);
    OldPart(sizes, newindx, s, pmax);
  }

  /**
   A split succeeds exactly when the page has at most twenty nodes with the new one, or the new one
   takes more than a sixteenth of a page or goes last, or the two halves around the middle fit. All
   of that can be read off the page before the call.
   */
  lemma SplitFitsExactly(sizes: seq<int>, newindx: nat, pmax: int)
    requires Splittable(sizes, newindx, pmax)
    ensures var s, mid := SplitIndex(sizes, newindx, pmax), |sizes| / 2;
            0 < s < |sizes| && Sum(sizes[..s]) <= pmax && Sum(sizes[s..]) <= pmax <==>
            || |sizes| <= 20 || 16 * sizes[newindx] > pmax || newindx == |sizes| - 1
            || (Sum(sizes[..mid]) <= pmax && Sum(sizes[mid..]) <= pmax)
  {
    hide Sum, SplitIndex;
    assert Scans(sizes, newindx, pmax) <==> |sizes| <= 20 || 16 * sizes[newindx] > pmax || newindx == |sizes| - 1;
    SplitFits(sizes, newindx, pmax);
  }

  lemma SplitFits(sizes: seq<int>, newindx: nat, pmax: int)
    requires Splittable(sizes, newindx, pmax)
    ensures HalvesFit(sizes, SplitIndex(sizes, newindx, pmax), pmax) <==>
            Scans(sizes, newindx, pmax) || HalvesFit(sizes, Midpoint(sizes), pmax)
  {
    if Scans(sizes, newindx, pmax) { ScanFits(sizes, newindx, pmax); }
  }

  function Repeat(n: nat, c: int): (ns: seq<int>)
    ensures |ns| == n && forall i :: 0 <= i < n ==> ns[i] == c
  {
    seq(n, _ => c)
  }

  lemma {:induction false} SumRepeat(n: nat, c: int)
    ensures Sum(Repeat(n, c)) == n * c
  {
    if n > 0 {
      assert Repeat(n, c)[1..] == Repeat(n - 1, c);
      SumRepeat(n - 1, c);
    }
  }

  /** Twenty nodes, four of them large and to the left: a small new first node overflows a 4096-byte page. */
  function LopsidedLeft(): seq<int> { [254] + (Repeat(4, 970) + Repeat(5, 12)) }

  function Lopsided(): seq<int> { LopsidedLeft() + Repeat(11, 12) }

  /** Without the scan the split of a page whose nodes all fit can fail with MDB_PAGE_FULL. */
  lemma MidpointMayOverflow()
    ensures Splittable(Lopsided(), 0, 4080) && !Scans(Lopsided(), 0, 4080)
    ensures !HalvesFit(Lopsided(), SplitIndex(Lopsided(), 0, 4080), 4080)
  {
    LopsidedSums();
    hide Sum, LopsidedLeft;
    assert Lopsided()[..10] == LopsidedLeft();
  }

  lemma LopsidedSums()
    ensures |LopsidedLeft()| == 10 && LopsidedLeft()[0] == 254
    ensures forall i :: 0 < i < 10 ==> LopsidedLeft()[i] == 970 || LopsidedLeft()[i] == 12
    ensures Sum(LopsidedLeft()) == 4194 && Sum(Lopsided()) == 4326
  {
    var big, small, right := Repeat(4, 970), Repeat(5, 12), Repeat(11, 12);
    SumRepeat(4, 970);
    SumRepeat(5, 12);
    SumRepeat(11, 12);
    SumAppend(big, small);
    SumAppend([254], big + small);
    SumAppend(LopsidedLeft(), right);
    assert [254][1..] == [];
  }
}
