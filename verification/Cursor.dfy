/**
 Cursors: the stack of pages and indices, siblings, first/last/next/prev, and mdb_cursor_set with
 its shortcut for a cursor that is already on the right page (mdb.c:5307-5800).

 A cursor works on the tree its transaction sees; the tree does not change under it.
 */
module Cursor {
  import opened BTree
  import opened BTreeSearch

  const CURSOR_STACK: nat := 32

  /** The first n pages of a stack lead from the root down, each page being the child the index above names. */
  ghost predicate OnStack(root: Tree, pg: seq<Tree>, ki: seq<nat>, n: nat) {
    && 0 < n <= |pg| && |pg| == |ki| && pg[0] == root
    && forall i :: 0 <= i < n - 1 ==> pg[i].Branch? && ki[i] < |pg[i].kids| && pg[i + 1] == pg[i].kids[ki[i]].sub
  }

  /** How many bindings a branch holds left of its child i. */
  ghost function LeftOf(t: Tree, i: nat): nat {
    if t.Branch? && i <= |t.kids| then |FlatKids(t.kids[..i])| else 0
  }

  /** How many bindings lie before the n-th page of a stack. */
  ghost function Start(pg: seq<Tree>, ki: seq<nat>, n: nat): nat
    requires n <= |pg| == |ki|
  {
    if n <= 1 then 0 else Start(pg, ki, n - 1) + LeftOf(pg[n - 2], ki[n - 2])
  }

  lemma {:induction false} StartSame(pg: seq<Tree>, ki: seq<nat>, pg': seq<Tree>, ki': seq<nat>, n: nat)
    requires n <= |pg| == |ki| && n <= |pg'| == |ki'|
    requires forall i :: 0 <= i < n - 1 ==> pg[i] == pg'[i] && ki[i] == ki'[i]
    ensures Start(pg, ki, n) == Start(pg', ki', n)
  {
    if n > 1 { StartSame(pg, ki, pg', ki', n - 1); }
  }

  /** Where the bindings of a branch's child lie among the branch's. */
  lemma {:induction false} ChildWithin(t: Tree, i: nat)
    requires t.Branch? && i < |t.kids|
    ensures LeftOf(t, i) + |Flat(t.kids[i].sub)| <= |Flat(t)|
    ensures Flat(t)[LeftOf(t, i)..LeftOf(t, i) + |Flat(t.kids[i].sub)|] == Flat(t.kids[i].sub)
    ensures i + 1 < |t.kids| ==> LeftOf(t, i + 1) == LeftOf(t, i) + |Flat(t.kids[i].sub)|
    ensures i + 1 == |t.kids| ==> LeftOf(t, i) + |Flat(t.kids[i].sub)| == |Flat(t)|
    ensures i == 0 ==> LeftOf(t, i) == 0
  {
    hide FlatKids;
    FlatSplit(t.kids, i);
    NoKids();
    assert i == 0 ==> t.kids[..i] == [];
    assert i + 1 == |t.kids| ==> t.kids[i + 1..] == [];
    FlatSplit(t.kids[..i + 1], i);
    assert t.kids[..i + 1][..i] == t.kids[..i] && t.kids[..i + 1][i + 1..] == [];
  }

  lemma NoKids()
    ensures FlatKids([]) == []
  {
  }

  /** The page on a stack holds the stretch of the root's bindings that begins at its start. */
  lemma {:induction false} Located(root: Tree, pg: seq<Tree>, ki: seq<nat>, n: nat)
    requires OnStack(root, pg, ki, n)
    ensures var s := Start(pg, ki, n); var f := Flat(pg[n - 1]);
            s + |f| <= |Flat(root)| && Flat(root)[s..s + |f|] == f
  {
    hide Flat, LeftOf;
    if n > 1 {
      Located(root, pg, ki, n - 1);
      ChildWithin(pg[n - 2], ki[n - 2]);
      var s, l := Start(pg, ki, n - 1), LeftOf(pg[n - 2], ki[n - 2]);
      var p, f := Flat(pg[n - 2]), Flat(pg[n - 1]);
      SliceOfSlice(Flat(root), s, |p|, l, |f|);
      assert p[l..l + |f|] == f;
    }
  }

  lemma SliceOfSlice(w: seq<Entry>, s: nat, m: nat, l: nat, k: nat)
    requires s + m <= |w| && l + k <= m
    ensures w[s..s + m][l..l + k] == w[s + l..s + l + k]
  {
    var u, x, y := w[s..s + m], w[s..s + m][l..l + k], w[s + l..s + l + k];
    forall j | 0 <= j < k ensures x[j] == y[j] {
      assert x[j] == u[l + j];
    }
  }

  lemma {:induction false} DepthOnStack(root: Tree, pg: seq<Tree>, ki: seq<nat>, n: nat, d: nat)
    requires OnStack(root, pg, ki, n) && Sorted(root) && Uniform(root, d)
    ensures n <= d && Sorted(pg[n - 1]) && Uniform(pg[n - 1], d - (n - 1)) && |Flat(pg[n - 1])| > 0
    ensures pg[n - 1].Leaf? <==> n == d
    ensures NumKeys(pg[n - 1]) > 0
  {
    if n > 1 { DepthOnStack(root, pg, ki, n - 1, d); }
    FlatNonEmpty(pg[n - 1]);
  }

  /** Moving the last but one index to a neighbouring child. */
  lemma {:induction false} Beside(root: Tree, pg: seq<Tree>, ki: seq<nat>, n: nat, i: nat)
    requires OnStack(root, pg, ki, n) && 1 < n && i < |pg[n - 2].kids|
    ensures var pg', ki' := pg[n - 1 := pg[n - 2].kids[i].sub], ki[n - 2 := i];
            && OnStack(root, pg', ki', n)
            && Start(pg', ki', n) == Start(pg, ki, n - 1) + LeftOf(pg[n - 2], i)
  {
    var pg', ki' := pg[n - 1 := pg[n - 2].kids[i].sub], ki[n - 2 := i];
    StartSame(pg, ki, pg', ki', n - 1);
  }

  lemma {:induction false} Shorter(root: Tree, pg: seq<Tree>, ki: seq<nat>, n: nat)
    requires OnStack(root, pg, ki, n) && n > 1
    ensures OnStack(root, pg, ki, n - 1) && pg[n - 2].Branch? && ki[n - 2] < |pg[n - 2].kids|
    ensures pg[n - 1] == pg[n - 2].kids[ki[n - 2]].sub
    ensures Start(pg, ki, n) == Start(pg, ki, n - 1) + LeftOf(pg[n - 2], ki[n - 2])
  {
  }

  /** Pushing a page does not disturb the stack below it. */
  lemma {:induction false} Pushed(root: Tree, pg: seq<Tree>, ki: seq<nat>, n: nat, k: nat)
    requires OnStack(root, pg, ki, n) && n < |pg| && pg[n - 1].Branch? && ki[n - 1] < |pg[n - 1].kids|
    ensures var pg', ki' := pg[n := pg[n - 1].kids[ki[n - 1]].sub], ki[n := k];
            && OnStack(root, pg', ki', n + 1)
            && Start(pg', ki', n + 1) == Start(pg, ki, n) + LeftOf(pg[n - 1], ki[n - 1])
  {
    StartSame(pg, ki, pg[n := pg[n - 1].kids[ki[n - 1]].sub], ki[n := k], n);
  }

  lemma {:induction false} TopIndex(root: Tree, pg: seq<Tree>, ki: seq<nat>, n: nat, k: nat)
    requires OnStack(root, pg, ki, n)
    ensures OnStack(root, pg, ki[n - 1 := k], n) && Start(pg, ki[n - 1 := k], n) == Start(pg, ki, n)
  {
    StartSame(pg, ki, pg, ki[n - 1 := k], n);
  }

  // ---- Where a search leads ------------------------------------------------------------------

  /** The leaf a key belongs in, and how many bindings lie before it. */
  ghost function LeafFor(t: Tree, k: Key): Tree
    requires Sorted(t)
    ensures LeafFor(t, k).Leaf?
    decreases t
  {
    match t
    case Leaf(_, _) => t
    case Branch(_, kids) =>
      var kid := kids[ChildAt(kids, k)];
      assert kid.sub < kid;
      LeafFor(kid.sub, k)
  }

  ghost function LeafStart(t: Tree, k: Key): nat
    requires Sorted(t)
    decreases t
  {
    match t
    case Leaf(_, _) => 0
    case Branch(_, kids) =>
      var i := ChildAt(kids, k);
      var kid := kids[i];
      assert kid.sub < kid;
      LeftOf(t, i) + LeafStart(kid.sub, k)
  }

  /** Position p divides the bindings into those below the key and the others. */
  ghost predicate Divides(es: seq<Entry>, p: nat, k: Key) {
    p <= |es| && Below(es[..p], k) && AtLeast(es[p..], k)
  }

  lemma {:induction false} DividesWithin(a: seq<Entry>, b: seq<Entry>, c: seq<Entry>, q: nat, k: Key)
    requires Below(a, k) && Divides(b, q, k) && AtLeast(c, k + 1)
    ensures Divides(a + b + c, |a| + q, k)
    ensures q < |b| ==> (a + b + c)[|a| + q] == b[q]
  {
    hide Below, AtLeast;
    assert (a + b + c)[..|a| + q] == a + b[..q] && (a + b + c)[|a| + q..] == b[q..] + c;
    BelowAppend(a, b[..q], k);
    BelowAppend(b[q..], c, k);
    AtLeastLess(c, k);
  }

  lemma LeafStep(t: Tree, k: Key, i: nat)
    requires t.Branch? && Sorted(t) && i < |t.kids| && ChildAt(t.kids, k) == i
    ensures Sorted(t.kids[i].sub) && LeafFor(t, k) == LeafFor(t.kids[i].sub, k)
    ensures LeafStart(t, k) == LeftOf(t, i) + LeafStart(t.kids[i].sub, k)
    ensures LeftOf(t, i) == |FlatKids(t.kids[..i])|
  {
    ChildSorted(t, i);
  }

  lemma LeafHere(t: Tree, k: Key)
    requires t.Leaf? && Sorted(t)
    ensures LeafFor(t, k) == t && LeafStart(t, k) == 0
  {
  }

  /** What a search in a tree finds: leaf items `items` from binding s on, position q among them. */
  ghost predicate SearchFinds(t: Tree, k: Key, items: seq<Item>, s: nat) {
    var q := Position(items, k);
    && s + |items| <= |Flat(t)| && Divides(Flat(t), s + q, k)
    && (q < |items| ==> Flat(t)[s + q] == Entries(items)[q])
    && (q == |items| ==> AtLeast(Flat(t)[s + q..], k + 1))
  }

  lemma {:induction false} FindsInChild(t: Tree, i: nat, k: Key, items: seq<Item>, s: nat)
    requires t.Branch? && Sorted(t) && i < |t.kids| && ChildAt(t.kids, k) == i
    requires SearchFinds(t.kids[i].sub, k, items, s)
    ensures SearchFinds(t, k, items, |FlatKids(t.kids[..i])| + s)
  {
    hide Sorted, FlatKids, Position, Divides, ChildAt;
    ChildDivides(t, k);
    FlatSplit(t.kids, i);
    DividesWithin(FlatKids(t.kids[..i]), Flat(t.kids[i].sub), FlatKids(t.kids[i + 1..]), s + Position(items, k), k);
    RestAbove(FlatKids(t.kids[..i]), Flat(t.kids[i].sub), FlatKids(t.kids[i + 1..]), s + Position(items, k), k);
  }

  lemma RestAbove(a: seq<Entry>, b: seq<Entry>, c: seq<Entry>, q: nat, k: Key)
    requires AtLeast(c, k + 1) && q <= |b|
    ensures AtLeast(b[q..], k + 1) ==> AtLeast((a + b + c)[|a| + q..], k + 1)
  {
    assert (a + b + c)[|a| + q..] == b[q..] + c;
    BelowAppend(b[q..], c, k + 1);
  }

  /** A search divides the bindings into those below the key and the others. */
  lemma {:induction false} SearchDivides(t: Tree, k: Key)
    requires Sorted(t)
    ensures SearchFinds(t, k, LeafFor(t, k).items, LeafStart(t, k))
    decreases t
  {
    hide Flat, FlatKids, LeafFor, LeafStart, SearchFinds, Position;
    if t.Leaf? {
      LeafFinds(t, k);
    } else {
      var i := ChildAt(t.kids, k);
      var kid := t.kids[i];
      assert kid.sub < kid;
      LeafStep(t, k, i);
      SearchDivides(kid.sub, k);
      FindsInChild(t, i, k, LeafFor(kid.sub, k).items, LeafStart(kid.sub, k));
    }
  }

  lemma LeafFinds(t: Tree, k: Key)
    requires t.Leaf? && Sorted(t)
    ensures SearchFinds(t, k, LeafFor(t, k).items, LeafStart(t, k))
  {
    hide Position;
    LeafDivides(t.items, k);
    LeafHere(t, k);
  }

  lemma ChildSorted(t: Tree, i: nat)
    requires t.Branch? && Sorted(t) && i < |t.kids|
    ensures Sorted(t.kids[i].sub)
  {
    var kid := t.kids[i];
    assert kid.sub < kid;
  }

  lemma AtLeastLess(es: seq<Entry>, k: Key)
    ensures AtLeast(es, k + 1) ==> AtLeast(es, k)
  {
  }

  lemma {:induction false} LeafDivides(items: seq<Item>, k: Key)
    requires Ascending(Entries(items))
    ensures Divides(Entries(items), Position(items, k), k)
  {
    var p, es := Position(items, k), Entries(items);
    assert forall j :: p < j < |es| ==> es[p].key < es[j].key;
  }

  /** A binding of the page on top of a stack is a binding of every page below. */
  lemma {:induction false} HeldBelow(root: Tree, pg: seq<Tree>, ki: seq<nat>, n: nat, m: nat, e: Entry)
    requires OnStack(root, pg, ki, n) && 0 < m <= n && e in Flat(pg[n - 1])
    ensures e in Flat(pg[m - 1])
    decreases n - m
  {
    hide Flat, LeftOf;
    if m < n {
      HeldBelow(root, pg, ki, n, m + 1, e);
      ChildWithin(pg[m - 1], ki[m - 1]);
      var p, l := Flat(pg[m - 1]), LeftOf(pg[m - 1], ki[m - 1]);
      assert e in p[l..l + |Flat(pg[m])|];
    }
  }

  /** Every index above the top names the last child. */
  ghost predicate RightEdge(pg: seq<Tree>, ki: seq<nat>, n: nat)
    requires n <= |pg| == |ki|
  {
    forall i :: 0 <= i < n - 1 ==> ki[i] + 1 >= NumKeys(pg[i])
  }

  /** Between two keys of a page, or beyond the first key of the last one, a search leads to that page. */
  lemma {:induction false} RightPage(root: Tree, pg: seq<Tree>, ki: seq<nat>, n: nat, k: Key, lo: Entry, hi: Entry, d: nat, m: nat)
    requires OnStack(root, pg, ki, n) && Sorted(root) && Uniform(root, d) && pg[n - 1].Leaf? && 0 < m <= n
    requires lo in Flat(pg[n - 1]) && lo.key <= k
    requires RightEdge(pg, ki, n) || (hi in Flat(pg[n - 1]) && k <= hi.key)
    ensures Sorted(pg[m - 1])
    ensures LeafFor(root, k) == LeafFor(pg[m - 1], k) && LeafStart(root, k) == Start(pg, ki, m) + LeafStart(pg[m - 1], k)
  {
    hide Flat, LeftOf, Uniform;
    DepthOnStack(root, pg, ki, m, d) by { Prefix(root, pg, ki, n, m); }
    if m > 1 {
      RightPage(root, pg, ki, n, k, lo, hi, d, m - 1);
      HeldBelow(root, pg, ki, n, m, lo);
      if !RightEdge(pg, ki, n) { HeldBelow(root, pg, ki, n, m, hi); }
      ChildIs(pg[m - 2], ki[m - 2], k, lo, hi);
    }
  }

  lemma Prefix(root: Tree, pg: seq<Tree>, ki: seq<nat>, n: nat, m: nat)
    requires OnStack(root, pg, ki, n) && 0 < m <= n
    ensures OnStack(root, pg, ki, m)
  {
  }

  lemma {:induction false} ChildIs(t: Tree, i: nat, k: Key, lo: Entry, hi: Entry)
    requires t.Branch? && Sorted(t) && i < |t.kids| && lo in Flat(t.kids[i].sub) && lo.key <= k
    requires i + 1 >= |t.kids| || (hi in Flat(t.kids[i].sub) && k <= hi.key)
    ensures ChildAt(t.kids, k) == i
  {
    var es := Flat(t.kids[i].sub);
    forall j | i < j < |t.kids| ensures k < t.kids[j].sep.key {
      assert Below(es, t.kids[j].sep.key);
    }
    ChildAtIs(t.kids, k, i);
  }

  /** The bindings of a leaf on a stack, among all bindings. */
  lemma {:induction false} HereIs(root: Tree, pg: seq<Tree>, ki: seq<nat>, n: nat, k: nat)
    requires OnStack(root, pg, ki, n) && pg[n - 1].Leaf?
    ensures |Flat(pg[n - 1])| == |pg[n - 1].items| && Start(pg, ki, n) + |pg[n - 1].items| <= |Flat(root)|
    ensures k < |pg[n - 1].items| ==> Flat(root)[Start(pg, ki, n) + k] == Entry(pg[n - 1].items[k].key, pg[n - 1].items[k].val)
  {
    hide Start;
    Located(root, pg, ki, n);
    var s, f := Start(pg, ki, n), Flat(pg[n - 1]);
    if k < |f| {
      assert f[k] == Flat(root)[s..s + |f|][k];
    }
  }

  // ---- Movements, as positions ---------------------------------------------------------------

  /**
   Where a cursor stands: before binding `pos`, `on` if the binding is in the page it is on;
   a search can leave it past the last binding of a page.
   */
  datatype Where = Unset | Standing(pos: nat, on: bool, eof: bool)

  datatype Move = First | Last | Next | Prev

  datatype Got = Nothing | Binding(i: nat)

  /** What a movement does to a cursor on a table of n bindings, and the binding it yields. */
  function Moved(op: Move, w: Where, n: nat): (Where, Got)
    requires n > 0
  {
    match op
    case First => (Standing(0, true, false), Binding(0))
    case Last => (Standing(n - 1, true, true), Binding(n - 1))
    case Next =>
      if w.Unset? then (Standing(0, true, false), Binding(0))
      else if w.eof then (w, Nothing)
      else
        var q := if w.on then w.pos + 1 else w.pos;
        if q < n then (Standing(q, true, false), Binding(q)) else (w.(eof := true), Nothing)
    case Prev =>
      if w.Unset? then (Standing(n - 1, true, false), Binding(n - 1))
      else if w.pos > 0 then (Standing(w.pos - 1, true, false), Binding(w.pos - 1))
      else (w, Nothing)
  }

  /** The bindings m movements in a row yield. */
  function Walk(op: Move, w: Where, n: nat, m: nat): seq<Got>
    requires n > 0
    decreases m
  {
    if m == 0 then []
    else
      var (w', g) := Moved(op, w, n);
      [g] + Walk(op, w', n, m - 1)
  }

  lemma {:induction false} WalkNextFrom(w: Where, n: nat, m: nat, i: nat)
    requires n > 0 && w.Standing? && w.on && w.pos < n && i < m
    ensures |Walk(Next, w, n, m)| == m
    ensures !w.eof ==> Walk(Next, w, n, m)[i] == if w.pos + 1 + i < n then Binding(w.pos + 1 + i) else Nothing
    ensures w.eof ==> Walk(Next, w, n, m)[i] == Nothing
    decreases m
  {
    var w' := Moved(Next, w, n).0;
    if i > 0 { WalkNextFrom(w', n, m - 1, i - 1); }
    else if m > 1 { WalkNextFrom(w', n, m - 1, 0); }
  }

  lemma {:induction false} WalkPrevFrom(w: Where, n: nat, m: nat, i: nat)
    requires n > 0 && w.Standing? && w.on && w.pos < n && i < m
    ensures |Walk(Prev, w, n, m)| == m
    ensures Walk(Prev, w, n, m)[i] == if i < w.pos then Binding(w.pos - 1 - i) else Nothing
    decreases m
  {
    var w' := Moved(Prev, w, n).0;
    if i > 0 { WalkPrevFrom(w', n, m - 1, i - 1); }
    else if m > 1 { WalkPrevFrom(w', n, m - 1, 0); }
  }

  /** From a fresh cursor MDB_NEXT yields every binding once, in order, and then nothing, for good. */
  lemma {:induction false} NextEnumerates(n: nat, m: nat, i: nat)
    requires n > 0 && i < m
    ensures |Walk(Next, Unset, n, m)| == m
    ensures Walk(Next, Unset, n, m)[i] == if i < n then Binding(i) else Nothing
  {
    if m > 1 { WalkNextFrom(Standing(0, true, false), n, m - 1, if i > 0 then i - 1 else 0); }
  }

  /** MDB_PREV yields them in reverse. */
  lemma {:induction false} PrevEnumerates(n: nat, m: nat, i: nat)
    requires n > 0 && i < m
    ensures |Walk(Prev, Unset, n, m)| == m
    ensures Walk(Prev, Unset, n, m)[i] == if i < n then Binding(n - 1 - i) else Nothing
  {
    if m > 1 { WalkPrevFrom(Standing(n - 1, true, false), n, m - 1, if i > 0 then i - 1 else 0); }
  }

  datatype Status = Success | NotFound

  /** MDB_SET, which wants the key itself, and MDB_SET_RANGE, which takes the next one. */
  datatype SetOp = SetKey | SetRange

  /** What a movement returns for the binding, or the lack of one, that the position model gives. */
  ghost predicate Returned(root: Tree, rc: Status, e: Entry, g: Got) {
    match g
    case Nothing => rc == NotFound
    case Binding(i) => rc == Success && i < |Flat(root)| && e == Flat(root)[i]
  }

  /** Where mdb_cursor_set leaves a cursor and what it returns; C_EOF is as given if nothing is found. */
  ghost function SetOutcome(root: Tree, k: Key, op: SetOp, eof: bool): (Where, Status)
    requires Sorted(root)
  {
    var s, items := LeafStart(root, k), LeafFor(root, k).items;
    var i := Position(items, k);
    if op == SetKey && !(i < |items| && items[i].key == k) then (Standing(s + i, i < |items|, eof), NotFound)
    else if s + i < |Flat(root)| then (Standing(s + i, true, false), Success)
    else (Standing(s + i, false, eof), NotFound)
  }

  /** The outcome in terms of the bindings: the cursor stands before the first key not below k. */
  lemma OutcomeDivides(root: Tree, k: Key, op: SetOp, end: bool)
    requires Sorted(root)
    ensures var (w, rc) := SetOutcome(root, k, op, end);
            && w.Standing? && w.pos <= |Flat(root)|
            && (forall j :: 0 <= j < |Flat(root)| ==> (Flat(root)[j].key < k <==> j < w.pos))
            && (rc == Success <==> w.pos < |Flat(root)| && (op == SetKey ==> Flat(root)[w.pos].key == k))
            && (rc == Success ==> w.on && !w.eof)
  {
    hide Sorted, LeafFor, LeafStart, Position, Flat;
    SearchDivides(root, k);
    var s, items, es := LeafStart(root, k), LeafFor(root, k).items, Flat(root);
    var p := s + Position(items, k);
    assert forall j :: p <= j < |es| ==> es[j] == es[p..][j - p];
    assert forall j :: 0 <= j < p ==> es[j] == es[..p][j];
  }

  class Cursor {
    const root: Tree
    const depth: nat
    // mc_pg, mc_ki and mc_snum; entries beyond snum are left over from earlier positions
    var pg: seq<Tree>
    var ki: seq<nat>
    var snum: nat
    var init: bool
    var eof: bool

    /** A non-empty table, and room on the stack for its depth. */
    ghost predicate Sound()
      reads this
    {
      Sorted(root) && Uniform(root, depth) && depth <= CURSOR_STACK && |pg| == |ki| == CURSOR_STACK
    }

    ghost predicate Placed()
      reads this
    {
      Sound() && 0 < snum <= CURSOR_STACK && OnStack(root, pg, ki, snum)
    }

    /** mdb_page_get and mdb_cursor_push of the child the top index names. */
    method Push(last: bool)
      requires Placed() && pg[snum - 1].Branch? && ki[snum - 1] < |pg[snum - 1].kids|
      modifies this`pg, this`ki, this`snum
      ensures Placed() && snum == old(snum) + 1
      ensures pg[..old(snum)] == old(pg[..snum]) && ki[..old(snum)] == old(ki[..snum])
      ensures pg[snum - 1] == old(pg[snum - 1].kids[ki[snum - 1]].sub)
      ensures ki[snum - 1] == if last then NumKeys(pg[snum - 1]) - 1 else 0
      ensures Start(pg, ki, snum) == old(Start(pg, ki, snum)) + old(LeftOf(pg[snum - 1], ki[snum - 1]))
    {
      hide OnStack, Start, LeftOf, Flat, Sorted, Uniform;
      DepthOnStack(root, pg, ki, snum, depth);
      var mp := pg[snum - 1].kids[ki[snum - 1]].sub;
      Pushed(root, pg, ki, snum, 0);
      DepthOnStack(root, pg[snum := mp], ki[snum := 0], snum + 1, depth);
      var k := if last then NumKeys(mp) - 1 else 0;
      Pushed(root, pg, ki, snum, k);
      pg, ki := pg[snum := mp], ki[snum := k];
      snum := snum + 1;
    }

    /** mdb_cursor_sibling: the page to the right or left at the same depth, or everything as it was. */
    method Sibling(right: bool) returns (rc: Status)
      requires Placed()
      modifies this`pg, this`ki, this`snum
      ensures Placed() && snum == old(snum)
      ensures rc == Success && right ==>
        Start(pg, ki, snum) == old(Start(pg, ki, snum)) + old(|Flat(pg[snum - 1])|) && ki[snum - 1] == 0
      ensures rc == Success && !right ==>
        Start(pg, ki, snum) + |Flat(pg[snum - 1])| == old(Start(pg, ki, snum)) && ki[snum - 1] == NumKeys(pg[snum - 1]) - 1
      ensures rc == NotFound ==> pg == old(pg) && ki == old(ki)
      ensures rc == NotFound ==>
        if right then Start(pg, ki, snum) + |Flat(pg[snum - 1])| == |Flat(root)| else Start(pg, ki, snum) == 0
      decreases snum
    {
      hide OnStack, Start, LeftOf, Flat, Sorted, Uniform;
      if snum < 2 {
        AtRoot(root, pg, ki, snum);
        return NotFound;
      }
      Shorter(root, pg, ki, snum);
      ChildWithin(pg[snum - 2], ki[snum - 2]);
      snum := snum - 1;
      var top := snum - 1;
      DepthOnStack(root, pg, ki, snum, depth);
      if if right then ki[top] + 1 >= NumKeys(pg[top]) else ki[top] == 0 {
        rc := Sibling(right);
        if rc != Success {
          snum := snum + 1;
          return;
        }
      } else {
        var i := if right then ki[top] + 1 else ki[top] - 1;
        ChildWithin(pg[top], i);
        TopIndex(root, pg, ki, snum, i);
        ki := ki[top := i];
      }
      DepthOnStack(root, pg, ki, snum, depth);
      ChildWithin(pg[top], ki[top]);
      Push(!right);
      rc := Success;
    }

    /** A cursor stands in a leaf once it has been used; at the end it stands in the last one. */
    ghost predicate Valid()
      reads this
    {
      && Sound()
      && (init ==> Placed() && snum == depth && pg[snum - 1].Leaf? && ki[snum - 1] <= NumKeys(pg[snum - 1]))
      && (eof ==> init && Start(pg, ki, snum) + |Flat(pg[snum - 1])| == |Flat(root)|)
    }

    constructor (root: Tree, depth: nat)
      requires Sorted(root) && Uniform(root, depth) && depth <= CURSOR_STACK
      ensures Valid() && this.root == root && this.depth == depth && !init
    {
      this.root, this.depth := root, depth;
      pg, ki := seq(CURSOR_STACK, _ => root), seq(CURSOR_STACK, _ => 0);
      snum, init, eof := 0, false, false;
    }

    /** Put the root page on an empty stack. */
    method PushRoot()
      requires Sound()
      modifies this`pg, this`ki, this`snum
      ensures Placed() && snum == 1 && pg[0] == root && ki[0] == 0 && Start(pg, ki, 1) == 0
    {
      pg, ki := pg[0 := root], ki[0 := 0];
      snum := 1;
    }

    /** mdb_page_search for the first or the last leaf. */
    method SearchEdge(last: bool)
      requires Sound()
      modifies this`pg, this`ki, this`snum, this`init, this`eof
      ensures Valid() && init && !eof && ki[snum - 1] == 0
      ensures if last then Start(pg, ki, snum) + |Flat(pg[snum - 1])| == |Flat(root)| else Start(pg, ki, snum) == 0
    {
      hide OnStack, Start, LeftOf, Flat, Sorted, Uniform;
      PushRoot();
      DepthOnStack(root, pg, ki, snum, depth);
      while pg[snum - 1].Branch?
        invariant Placed() && ki[snum - 1] == 0 && NumKeys(pg[snum - 1]) > 0
        invariant if last then Start(pg, ki, snum) + |Flat(pg[snum - 1])| == |Flat(root)| else Start(pg, ki, snum) == 0
        decreases CURSOR_STACK - snum
      {
        var i := if last then NumKeys(pg[snum - 1]) - 1 else 0;
        ChildWithin(pg[snum - 1], i);
        TopIndex(root, pg, ki, snum, i);
        ki := ki[snum - 1 := i];
        Push(false);
        DepthOnStack(root, pg, ki, snum, depth);
      }
      DepthOnStack(root, pg, ki, snum, depth);
      init, eof := true, false;
    }

    /** mdb_page_search for the leaf a key belongs in. */
    method PageSearch(k: Key)
      requires Sound()
      modifies this`pg, this`ki, this`snum, this`init, this`eof
      ensures Valid() && init && !eof
      ensures pg[snum - 1] == LeafFor(root, k) && Start(pg, ki, snum) == LeafStart(root, k)
    {
      hide OnStack, Start, LeftOf, Flat, Uniform, LeafFor, LeafStart, Sorted;
      PushRoot();
      DepthOnStack(root, pg, ki, snum, depth);
      while pg[snum - 1].Branch?
        invariant Placed() && Sorted(pg[snum - 1]) && ki[snum - 1] == 0
        invariant LeafFor(root, k) == LeafFor(pg[snum - 1], k)
        invariant LeafStart(root, k) == Start(pg, ki, snum) + LeafStart(pg[snum - 1], k)
        decreases CURSOR_STACK - snum
      {
        var i, exact := NodeSearch(pg[snum - 1], k);
        if !exact { i := i - 1; }
        LeafStep(pg[snum - 1], k, i);
        TopIndex(root, pg, ki, snum, i);
        ki := ki[snum - 1 := i];
        Push(false);
        DepthOnStack(root, pg, ki, snum, depth);
      }
      DepthOnStack(root, pg, ki, snum, depth);
      LeafHere(pg[snum - 1], k);
      init, eof := true, false;
    }

    ghost function Here(): Where
      reads this
      requires Valid()
    {
      if init then Standing(Start(pg, ki, snum) + ki[snum - 1], ki[snum - 1] < NumKeys(pg[snum - 1]), eof) else Unset
    }

    /** The outcome of a movement. */
    ghost predicate Yields(rc: Status, e: Entry, g: Got)
      reads this
    {
      Returned(root, rc, e, g)
    }

    /** The binding the cursor is on. */
    method Current() returns (e: Entry)
      requires Valid() && init && ki[snum - 1] < NumKeys(pg[snum - 1])
      ensures Here().pos < |Flat(root)| && e == Flat(root)[Here().pos]
    {
      hide OnStack, Start, Flat, Sorted, Uniform;
      HereIs(root, pg, ki, snum, ki[snum - 1]);
      var it := pg[snum - 1].items[ki[snum - 1]];
      e := Entry(it.key, it.val);
    }

    method GoFirst() returns (e: Entry)
      requires Valid()
      modifies this`pg, this`ki, this`snum, this`init, this`eof
      ensures Valid() && |Flat(root)| > 0 && Here() == Moved(First, old(Here()), |Flat(root)|).0
      ensures Yields(Success, e, Moved(First, old(Here()), |Flat(root)|).1)
    {
      hide OnStack, Start, Flat, Sorted, Uniform;
      if !init || snum > 1 { SearchEdge(false); } else { AtRoot(root, pg, ki, snum); }
      TopIndex(root, pg, ki, snum, 0);
      ki := ki[snum - 1 := 0];
      init, eof := true, false;
      DepthOnStack(root, pg, ki, snum, depth);
      e := Current();
    }

    method GoLast() returns (e: Entry)
      requires Valid()
      modifies this`pg, this`ki, this`snum, this`init, this`eof
      ensures Valid() && |Flat(root)| > 0 && Here() == Moved(Last, old(Here()), |Flat(root)|).0
      ensures Yields(Success, e, Moved(Last, old(Here()), |Flat(root)|).1)
      ensures ki[snum - 1] == NumKeys(pg[snum - 1]) - 1
    {
      hide OnStack, Start, Flat, Sorted, Uniform;
      if !eof {
        if !init || snum > 1 { SearchEdge(true); } else { AtRoot(root, pg, ki, snum); }
      }
      DepthOnStack(root, pg, ki, snum, depth);
      TopIndex(root, pg, ki, snum, NumKeys(pg[snum - 1]) - 1);
      ki := ki[snum - 1 := NumKeys(pg[snum - 1]) - 1];
      init, eof := true, true;
      HereIs(root, pg, ki, snum, 0);
      e := Current();
    }

    method GoNext() returns (rc: Status, e: Entry)
      requires Valid() && init && |Flat(root)| > 0
      modifies this`pg, this`ki, this`snum, this`eof
      ensures Valid() && init && Here() == Moved(Next, old(Here()), |Flat(root)|).0
      ensures Yields(rc, e, Moved(Next, old(Here()), |Flat(root)|).1)
      ensures rc == NotFound ==> pg == old(pg) && ki == old(ki) && snum == old(snum)
    {
      hide OnStack, Start, Flat, Sorted, Uniform;
      e := Flat(root)[0];
      if eof { return NotFound, e; }
      HereIs(root, pg, ki, snum, 0);
      if ki[snum - 1] + 1 >= NumKeys(pg[snum - 1]) {
        rc := Sibling(true);
        if rc != Success {
          eof := true;
          return;
        }
      } else {
        TopIndex(root, pg, ki, snum, ki[snum - 1] + 1);
        ki := ki[snum - 1 := ki[snum - 1] + 1];
      }
      DepthOnStack(root, pg, ki, snum, depth);
      e := Current();
      rc := Success;
    }

    /** One place back, on this page or the one to the left. */
    method StepBack() returns (rc: Status)
      requires Valid() && init
      modifies this`pg, this`ki, this`snum, this`eof
      ensures Valid() && init && (rc == NotFound <==> old(Here()).pos == 0)
      ensures rc == NotFound ==> pg == old(pg) && ki == old(ki) && snum == old(snum) && eof == old(eof)
      ensures rc == Success ==> Here() == Standing(old(Here()).pos - 1, true, false)
    {
      hide OnStack, Start, Flat, Sorted, Uniform;
      HereIs(root, pg, ki, snum, 0);
      if ki[snum - 1] == 0 {
        rc := Sibling(false);
        if rc != Success { return; }
        label Found:
        DepthOnStack(root, pg, ki, snum, depth);
        HereIs(root, pg, ki, snum, 0);
        ki := ki[snum - 1 := NumKeys(pg[snum - 1]) - 1];
        assert ki == old@Found(ki);
      } else {
        TopIndex(root, pg, ki, snum, ki[snum - 1] - 1);
        ki := ki[snum - 1 := ki[snum - 1] - 1];
      }
      eof := false;
      DepthOnStack(root, pg, ki, snum, depth);
      rc := Success;
    }

    method GoPrev() returns (rc: Status, e: Entry)
      requires Valid() && init && |Flat(root)| > 0
      modifies this`pg, this`ki, this`snum, this`eof
      ensures Valid() && init && Here() == Moved(Prev, old(Here()), |Flat(root)|).0
      ensures Yields(rc, e, Moved(Prev, old(Here()), |Flat(root)|).1)
      ensures rc == NotFound ==> pg == old(pg) && ki == old(ki) && snum == old(snum)
    {
      hide OnStack, Start, Flat, Sorted, Uniform;
      e := Flat(root)[0];
      rc := StepBack();
      if rc == Success { e := Current(); }
    }

    /** mdb_cursor_get with MDB_FIRST, MDB_LAST, MDB_NEXT or MDB_PREV. */
    method Go(op: Move) returns (rc: Status, e: Entry)
      requires Valid()
      modifies this`pg, this`ki, this`snum, this`init, this`eof
      ensures Valid() && |Flat(root)| > 0 && Here() == Moved(op, old(Here()), |Flat(root)|).0
      ensures Yields(rc, e, Moved(op, old(Here()), |Flat(root)|).1)
      ensures op == First ==> rc == Success && e == Flat(root)[0] && Here() == Standing(0, true, false)
      ensures op == Last ==> rc == Success && e == Flat(root)[|Flat(root)| - 1] && Here() == Standing(|Flat(root)| - 1, true, true)
      ensures rc == Success ==> Here().Standing? && Here().on && Here().pos < |Flat(root)| && e == Flat(root)[Here().pos]
      ensures op == Next && rc == Success && old(Here()).Standing? ==>
                !old(Here()).eof && Here().pos == if old(Here()).on then old(Here()).pos + 1 else old(Here()).pos
      ensures op == Prev && rc == Success && old(Here()).Standing? ==> Here().pos == old(Here()).pos - 1
      ensures op == Prev ==> (rc == NotFound <==> old(Here()).Standing? && old(Here()).pos == 0)
    {
      hide OnStack, Start, Flat, Sorted, Uniform;
      rc := Success;
      Something(root);
      match op
      case First => e := GoFirst();
      case Last => e := GoLast();
      case Next => if !init { e := GoFirst(); } else { rc, e := GoNext(); }
      case Prev =>
        if !init {
          e := GoLast();
          TopIndex(root, pg, ki, snum, ki[snum - 1] + 1);
          ki := ki[snum - 1 := ki[snum - 1] + 1];
        }
        rc, e := GoPrev();
    }

    /**
     The outcome of mdb_cursor_set: on the leaf the key belongs in, at the first key not below it;
     MDB_SET_RANGE goes on to the next leaf. If nothing is found C_EOF is `end`.
     */
    ghost predicate SetTo(k: Key, op: SetOp, rc: Status, end: bool)
      reads this
      requires Valid()
    {
      var s, items := LeafStart(root, k), LeafFor(root, k).items;
      var i := Position(items, k);
      init &&
      var here := pg[snum - 1] == LeafFor(root, k) && Start(pg, ki, snum) == s && ki[snum - 1] == i;
      if op == SetKey && !(i < |items| && items[i].key == k) then rc == NotFound && here && eof == end
      else if i < |items| then rc == Success && here && !eof
      else if s + i < |Flat(root)| then rc == Success && Start(pg, ki, snum) == s + i && ki[snum - 1] == 0 && !eof
      else rc == NotFound && here && eof == end
    }

    /** The cursor is on a page from which mdb_cursor_set answers without a search from the root. */
    ghost predicate Answers(k: Key)
      reads this
      requires Valid()
    {
      init &&
      var items := pg[snum - 1].items;
      |items| > 0 &&
      (items[0].key <= k <= items[|items| - 1].key || (items[|items| - 1].key < k && RightEdge(pg, ki, snum)) || snum == 1)
    }

    /** Search the leaf the cursor is on, which is the right one, and go on to the next if need be (label set2). */
    method SetInLeaf(k: Key, op: SetOp) returns (rc: Status)
      requires Valid() && init && pg[snum - 1] == LeafFor(root, k) && Start(pg, ki, snum) == LeafStart(root, k)
      modifies this`pg, this`ki, this`snum, this`eof
      ensures Valid() && SetTo(k, op, rc, old(eof))
    {
      hide OnStack, Start, Flat, Uniform, LeafFor, LeafStart, Position;
      DepthOnStack(root, pg, ki, snum, depth);
      HereIs(root, pg, ki, snum, 0);
      LeafInOrder(pg[snum - 1]);
      var i, exact := NodeSearch(pg[snum - 1], k);
      TopIndex(root, pg, ki, snum, i);
      ki := ki[snum - 1 := i];
      if op == SetKey && !exact { return NotFound; }
      if i == NumKeys(pg[snum - 1]) {
        rc := Sibling(true);
        if rc != Success { return; }
        DepthOnStack(root, pg, ki, snum, depth);
        HereIs(root, pg, ki, snum, 0);
      }
      eof := false;
      rc := Success;
    }

    /** MDB_SET and MDB_SET_RANGE (mdb_cursor_set), from wherever the cursor is. */
    method Set(k: Key, op: SetOp) returns (rc: Status)
      requires Valid()
      modifies this`pg, this`ki, this`snum, this`init, this`eof
      ensures Valid() && SetTo(k, op, rc, old(eof && Answers(k)))
      ensures Here() == SetOutcome(root, k, op, false).0 <==> rc == Success || !old(eof) || !old(Answers(k))
      ensures (Here(), rc) == SetOutcome(root, k, op, old(eof && Answers(k)))
      ensures Here().Standing? && Here().pos <= |Flat(root)|
      ensures forall j :: 0 <= j < |Flat(root)| ==> (Flat(root)[j].key < k <==> j < Here().pos)
      ensures rc == Success <==> Here().pos < |Flat(root)| && (op == SetKey ==> Flat(root)[Here().pos].key == k)
      ensures rc == Success ==> Here().on && !Here().eof
    {
      hide OnStack, Start, Flat, Uniform, LeafFor, LeafStart, Position, Sorted, RightEdge;
      ghost var end := eof && Answers(k);
      if init {
        var done: bool;
        done, rc := TryHere(k, op);
        if done {
          OutcomeIs(k, op, rc, end);
          return;
        }
      }
      PageSearch(k);
      rc := SetInLeaf(k, op);
      OutcomeIs(k, op, rc, end);
    }

    /** The outcome as a position, and when it is that of a search from the root. */
    lemma OutcomeIs(k: Key, op: SetOp, rc: Status, end: bool)
      requires Valid() && SetTo(k, op, rc, end)
      ensures (Here(), rc) == SetOutcome(root, k, op, end)
      ensures Here() == SetOutcome(root, k, op, false).0 <==> rc == Success || !end
      ensures Here().Standing? && Here().pos <= |Flat(root)|
      ensures forall j :: 0 <= j < |Flat(root)| ==> (Flat(root)[j].key < k <==> j < Here().pos)
      ensures rc == Success <==> Here().pos < |Flat(root)| && (op == SetKey ==> Flat(root)[Here().pos].key == k)
      ensures rc == Success ==> Here().on && !Here().eof
    {
      hide OnStack, Start, Uniform, LeafFor, LeafStart, Position, Sorted, Flat, SetOutcome;
      HereIs(root, pg, ki, snum, 0);
      SearchDivides(root, k);
      DepthOnStack(root, pg, ki, snum, depth);
      OutcomeDivides(root, k, op, end);
      SetIs(k, op, rc, end);
    }

    lemma SetIs(k: Key, op: SetOp, rc: Status, end: bool)
      requires Valid() && SetTo(k, op, rc, end) && |Flat(root)| > 0
      ensures (Here(), rc) == SetOutcome(root, k, op, end)
      ensures Here() == SetOutcome(root, k, op, false).0 <==> rc == Success || !end
    {
      hide OnStack, Start, Uniform, LeafFor, LeafStart, Position, Sorted;
      HereIs(root, pg, ki, snum, 0);
      SearchDivides(root, k);
      DepthOnStack(root, pg, ki, snum, depth);
    }

    /** Stand at index i of the leaf, which is the right one for the key. */
    method Land(i: nat, k: Key, op: SetOp)
      requires Valid() && init && pg[snum - 1] == LeafFor(root, k) && Start(pg, ki, snum) == LeafStart(root, k)
      requires i == Position(pg[snum - 1].items, k) < |pg[snum - 1].items|
      requires op == SetKey ==> pg[snum - 1].items[i].key == k
      modifies this`ki, this`eof
      ensures Valid() && SetTo(k, op, Success, old(eof))
    {
      hide OnStack, Start, Flat, Uniform, LeafFor, LeafStart, Position, Sorted;
      TopIndex(root, pg, ki, snum, i);
      ki := ki[snum - 1 := i];
      eof := false;
    }

    method Miss(i: nat, k: Key, op: SetOp)
      requires Valid() && init && pg[snum - 1] == LeafFor(root, k) && Start(pg, ki, snum) == LeafStart(root, k)
      requires var items := pg[snum - 1].items;
               i == Position(items, k) && (i < |items| ==> op == SetKey && items[i].key != k) &&
               (i == |items| ==> Start(pg, ki, snum) + i >= |Flat(root)|)
      modifies this`ki
      ensures Valid() && SetTo(k, op, NotFound, old(eof))
    {
      hide OnStack, Start, Flat, Uniform, LeafFor, LeafStart, Position, Sorted;
      TopIndex(root, pg, ki, snum, i);
      ki := ki[snum - 1 := i];
    }

    /** The key lies between the first and the last key of the leaf. */
    method SetOnPage(k: Key, op: SetOp) returns (rc: Status)
      requires Valid() && init && |pg[snum - 1].items| > 0
      requires pg[snum - 1].items[0].key <= k <= pg[snum - 1].items[|pg[snum - 1].items| - 1].key
      modifies this`pg, this`ki, this`snum, this`eof
      ensures Valid() && SetTo(k, op, rc, old(eof))
    {
      hide OnStack, Start, Flat, Uniform, LeafFor, LeafStart, Position, Sorted;
      var mp := pg[snum - 1];
      var nkeys := |mp.items|;
      OnPage(root, pg, ki, snum, depth, k);
      if k == mp.items[0].key {
        Land(0, k, op);
        return Success;
      }
      if k == mp.items[nkeys - 1].key {
        Land(nkeys - 1, k, op);
        return Success;
      }
      if ki[snum - 1] < nkeys && k == mp.items[ki[snum - 1]].key {
        DepthOnStack(root, pg, ki, snum, depth);
        LeafInOrder(mp);
        AtKey(mp.items, ki[snum - 1]);
        Land(ki[snum - 1], k, op);
        return Success;
      }
      rc := SetInLeaf(k, op);
    }

    /** Whether some page above the leaf has a right sibling. */
    method HasRight() returns (r: bool)
      requires Valid() && init
      ensures !r <==> RightEdge(pg, ki, snum)
    {
      var i := 0;
      while i < snum - 1
        invariant i <= snum - 1 && forall j :: 0 <= j < i ==> ki[j] + 1 >= NumKeys(pg[j])
      {
        if ki[i] + 1 < NumKeys(pg[i]) { return true; }
        i := i + 1;
      }
      r := false;
    }

    /** See if the cursor is already on the right page; false if it must search from the root. */
    method TryHere(k: Key, op: SetOp) returns (done: bool, rc: Status)
      requires Valid() && init
      modifies this`pg, this`ki, this`snum, this`eof
      ensures Valid() && (done <==> old(Answers(k))) && (done ==> SetTo(k, op, rc, old(eof)))
    {
      hide OnStack, Start, Flat, Uniform, LeafFor, LeafStart, Position, Sorted, RightEdge;
      done, rc := true, NotFound;
      var mp := pg[snum - 1];
      DepthOnStack(root, pg, ki, snum, depth);
      LeafInOrder(mp);
      var nkeys := NumKeys(mp);
      if mp.items[0].key <= k {
        if k <= mp.items[nkeys - 1].key {
          rc := SetOnPage(k, op);
          return;
        }
        var more := HasRight();
        if !more {
          LastPage(root, pg, ki, snum, depth, k);
          Miss(nkeys, k, op);
          return;
        }
      }
      if snum == 1 {
        AtRoot(root, pg, ki, snum);
        NoEdge(pg, ki, snum);
        FirstPage(root, pg, ki, snum, k);
        if op == SetRange {
          Land(0, k, op);
          rc := Success;
        } else {
          Miss(0, k, op);
        }
        return;
      }
      done := false;
    }
  }

  // ---- Movements in a row --------------------------------------------------------------------

  lemma WalkStep(op: Move, w: Where, n: nat, m: nat)
    requires n > 0 && m > 0
    ensures Walk(op, w, n, m) == [Moved(op, w, n).1] + Walk(op, Moved(op, w, n).0, n, m - 1)
  {
  }

  lemma {:induction false} WalkLength(op: Move, w: Where, n: nat, m: nat)
    requires n > 0
    ensures |Walk(op, w, n, m)| == m
    decreases m
  {
    if m > 0 { WalkLength(op, Moved(op, w, n).0, n, m - 1); }
  }

  /**
   A fresh cursor and m times MDB_NEXT, or m times MDB_PREV: the bindings of the table, each once,
   in ascending or in descending order, and after the last of them not-found for good.
   */
  method Traverse(root: Tree, depth: nat, op: Move, m: nat) returns (rcs: seq<Status>, es: seq<Entry>)
    requires Sorted(root) && Uniform(root, depth) && depth <= CURSOR_STACK && (op == Next || op == Prev)
    ensures |rcs| == |es| == m
    ensures forall j :: 0 <= j < m ==> (rcs[j] == Success <==> j < |Flat(root)|)
    ensures forall j :: 0 <= j < m && j < |Flat(root)| ==>
              es[j] == Flat(root)[if op == Next then j else |Flat(root)| - 1 - j]
  {
    hide Sorted, Uniform, Flat, Walk, Moved;
    var c := new Cursor(root, depth);
    Something(root);
    ghost var n := |Flat(root)|;
    ghost var walk := Walk(op, Unset, n, m);
    WalkLength(op, Unset, n, m);
    rcs, es := [], [];
    while |rcs| < m
      invariant |rcs| == |es| <= m && c.Valid() && c.root == root && fresh(c)
      invariant walk[|rcs|..] == Walk(op, c.Here(), n, m - |rcs|)
      invariant forall j :: 0 <= j < |rcs| ==> Returned(root, rcs[j], es[j], walk[j])
      decreases m - |rcs|
    {
      ghost var j, w := |rcs|, c.Here();
      WalkStep(op, w, n, m - j);
      var rc, e := c.Go(op);
      assert walk[j] == walk[j..][0] && walk[j + 1..] == walk[j..][1..];
      rcs, es := rcs + [rc], es + [e];
    }
    forall j | 0 <= j < m
      ensures rcs[j] == Success <==> j < n
      ensures j < n ==> es[j] == Flat(root)[if op == Next then j else n - 1 - j]
    {
      if op == Next { NextEnumerates(n, m, j); } else { PrevEnumerates(n, m, j); }
    }
  }

  /** Three bindings on one page. */
  function ThreeKeys(): Tree {
    Leaf(2, [Item(1, Val(0, 0), Inline), Item(3, Val(0, 0), Inline), Item(5, Val(0, 0), Inline)])
  }

  /**
   The shortcut of mdb_cursor_set is not quite without trace. After MDB_LAST, MDB_SET of a missing
   key on that page answers at once and leaves C_EOF set, so MDB_NEXT finds nothing; the same two
   calls on a fresh cursor find the next binding.
   */
  method EofHidesNext() returns (stale: Status, clean: Status, e: Entry)
    ensures stale == NotFound && clean == Success && e == Entry(5, Val(0, 0))
  {
    var t := ThreeKeys();
    ThreeKeysSearch();
    var c := new Cursor(t, 1);
    var rc;
    rc, e := c.Go(Last);
    rc := c.Set(2, SetKey);
    stale, e := c.Go(Next);
    var f := new Cursor(t, 1);
    rc := f.Set(2, SetKey);
    clean, e := f.Go(Next);
  }

  lemma ThreeKeysSearch()
    ensures var t := ThreeKeys(); Sorted(t) && Uniform(t, 1) && |Flat(t)| == 3 && Flat(t)[2] == Entry(5, Val(0, 0))
    ensures SetOutcome(ThreeKeys(), 2, SetKey, true) == (Standing(1, true, true), NotFound)
    ensures SetOutcome(ThreeKeys(), 2, SetKey, false) == (Standing(1, true, false), NotFound)
  {
    PositionIs(ThreeKeys().items, 2, 1);
  }

  lemma NoEdge(pg: seq<Tree>, ki: seq<nat>, n: nat)
    requires n <= |pg| == |ki|
    ensures n == 1 ==> RightEdge(pg, ki, n)
  {
  }

  lemma {:induction false} AtKey(items: seq<Item>, i: nat)
    requires Ascending(Entries(items)) && i < |items|
    ensures Position(items, items[i].key) == i
  {
    var es := Entries(items);
    assert forall j :: 0 <= j < i ==> es[j].key < es[i].key;
    PositionIs(items, items[i].key, i);
  }

  lemma {:induction false} OnPage(root: Tree, pg: seq<Tree>, ki: seq<nat>, n: nat, d: nat, k: Key)
    requires OnStack(root, pg, ki, n) && Sorted(root) && Uniform(root, d) && pg[n - 1].Leaf? && |pg[n - 1].items| > 0
    requires pg[n - 1].items[0].key <= k <= pg[n - 1].items[|pg[n - 1].items| - 1].key
    ensures pg[n - 1] == LeafFor(root, k) && Start(pg, ki, n) == LeafStart(root, k)
    ensures k == pg[n - 1].items[0].key ==> Position(pg[n - 1].items, k) == 0
    ensures k == pg[n - 1].items[|pg[n - 1].items| - 1].key ==> Position(pg[n - 1].items, k) == |pg[n - 1].items| - 1
  {
    hide Start, Uniform, LeafFor, LeafStart, Position;
    var items := pg[n - 1].items;
    var es := Entries(items);
    assert es[0] in Flat(pg[n - 1]) && es[|items| - 1] in Flat(pg[n - 1]);
    RightPage(root, pg, ki, n, k, es[0], es[|items| - 1], d, n);
    LeafHere(pg[n - 1], k);
    LeafInOrder(pg[n - 1]);
    AtKey(items, 0);
    AtKey(items, |items| - 1);
  }

  lemma {:induction false} LastPage(root: Tree, pg: seq<Tree>, ki: seq<nat>, n: nat, d: nat, k: Key)
    requires OnStack(root, pg, ki, n) && Sorted(root) && Uniform(root, d) && pg[n - 1].Leaf? && |pg[n - 1].items| > 0
    requires pg[n - 1].items[|pg[n - 1].items| - 1].key < k && RightEdge(pg, ki, n)
    ensures pg[n - 1] == LeafFor(root, k) && Start(pg, ki, n) == LeafStart(root, k)
    ensures Position(pg[n - 1].items, k) == |pg[n - 1].items| && Start(pg, ki, n) + |pg[n - 1].items| == |Flat(root)|
  {
    hide Start, Uniform, LeafFor, LeafStart, Position;
    var items := pg[n - 1].items;
    var es := Entries(items);
    assert es[0] in Flat(pg[n - 1]);
    DepthOnStack(root, pg, ki, n, d);
    LeafInOrder(pg[n - 1]);
    assert forall j :: 0 <= j < |items| - 1 ==> es[j].key < es[|items| - 1].key;
    RightPage(root, pg, ki, n, k, es[0], es[0], d, n);
    LeafHere(pg[n - 1], k);
    PositionIs(items, k, |items|);
    EdgeEnds(root, pg, ki, n);
  }

  lemma {:induction false} EdgeEnds(root: Tree, pg: seq<Tree>, ki: seq<nat>, n: nat)
    requires OnStack(root, pg, ki, n) && RightEdge(pg, ki, n)
    ensures Start(pg, ki, n) + |Flat(pg[n - 1])| == |Flat(root)|
  {
    hide Flat, LeftOf;
    if n > 1 {
      EdgeEnds(root, pg, ki, n - 1);
      ChildWithin(pg[n - 2], ki[n - 2]);
    }
  }

  lemma {:induction false} FirstPage(root: Tree, pg: seq<Tree>, ki: seq<nat>, n: nat, k: Key)
    requires OnStack(root, pg, ki, n) && n == 1 && Sorted(root) && root.Leaf? && k < root.items[0].key
    ensures pg[0] == LeafFor(root, k) && Start(pg, ki, n) == LeafStart(root, k) && Position(root.items, k) == 0
  {
  }

  lemma LeafInOrder(t: Tree)
    requires t.Leaf? && Sorted(t)
    ensures Ascending(Entries(t.items)) && |t.items| > 0
  {
  }

  lemma Something(root: Tree)
    requires Sorted(root)
    ensures |Flat(root)| > 0
  {
    FlatNonEmpty(root);
  }

  lemma AtRoot(root: Tree, pg: seq<Tree>, ki: seq<nat>, n: nat)
    requires OnStack(root, pg, ki, n) && n < 2
    ensures n == 1 && pg[0] == root && Start(pg, ki, n) == 0
  {
  }
}


