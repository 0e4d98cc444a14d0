/** The compacting copy numbers its pages consecutively, loses nothing, and knows the root's number in advance. */
module CompactProof {
  import opened Compact

  // ---- Numbers -------------------------------------------------------------------------------

  function PagesOf(page: Raw): nat {
    if page.RawOver? then page.n else 1
  }

  /** The pages in the file order are numbered lo, lo + 1, .. up to hi - 1. */
  ghost predicate Numbered(out: seq<Out>, lo: Pgno, hi: Pgno) {
    if out == [] then lo == hi
    else
      var o := out[|out| - 1];
      PagesOf(o.page) > 0 && o.pg + PagesOf(o.page) == hi && Numbered(out[..|out| - 1], lo, o.pg)
  }

  lemma {:induction false} NumberedAppend(a: seq<Out>, b: seq<Out>, lo: Pgno, mid: Pgno, hi: Pgno)
    requires Numbered(a, lo, mid) && Numbered(b, mid, hi)
    ensures Numbered(a + b, lo, hi)
  {
    if b == [] {
      assert a + b == a;
    } else {
      var n := |b| - 1;
      NumberedAppend(a, b[..n], lo, mid, b[n].pg);
      assert (a + b)[..|a + b| - 1] == a + b[..n];
    }
  }

  /** How many pages a tree has: its own, its overflow pages and those of its sub-databases. */
  ghost function PageCount(t: Tree): nat
    decreases t, 1
  {
    match t
    case Leaf(_, nodes) => 1 + NodesCount(nodes)
    case Branch(_, kids) => 1 + KidsCount(kids)
  }

  ghost function NodesCount(nodes: seq<Node>): nat
    decreases nodes, 0
  {
    if nodes == [] then 0
    else
      var node := nodes[|nodes| - 1];
      assert node.cell < node;
      NodesCount(nodes[..|nodes| - 1]) + CellCount(node.cell)
  }

  ghost function CellCount(cell: Cell): nat
    decreases cell, 2
  {
    match cell
    case Inline(_) => 0
    case Big(_, n, _) => n
    case Sub(root) => if root.Invalid? then 0 else (assert root.tree < root; PageCount(root.tree))
  }

  ghost function KidsCount(kids: seq<Kid>): nat
    decreases kids, 0
  {
    if kids == [] then 0
    else
      var kid := kids[|kids| - 1];
      assert kid.sub < kid;
      KidsCount(kids[..|kids| - 1]) + PageCount(kid.sub)
  }

  /** The walk uses as many numbers as the tree has pages, consecutively, and the last one for the tree itself. */
  lemma {:induction false} WalkNumbers(t: Tree, next: Pgno)
    requires Sound(t)
    ensures var w := Walk(t, next);
            Numbered(w.out, next, w.next) && w.next == next + PageCount(t) && w.pg == w.next - 1
    decreases t, 1
  {
    match t
    case Leaf(_, nodes) =>
      NodesNumbers(nodes, next);
      var r := WalkNodes(nodes, next);
      assert (r.out + [Out(r.next, RawLeaf(r.nodes))])[..|r.out|] == r.out;
    case Branch(_, kids) =>
      KidsNumbers(kids, next);
      var r := WalkKids(kids, next);
      assert (r.out + [Out(r.next, RawBranch(r.kids))])[..|r.out|] == r.out;
  }

  lemma {:induction false} CellNumbers(cell: Cell, next: Pgno)
    requires SoundCell(cell)
    ensures var (out, _, next') := WalkCell(cell, next); Numbered(out, next, next') && next' == next + CellCount(cell)
    decreases cell, 2
  {
    match cell
    case Inline(_) =>
    case Big(_, n, data) => assert WalkCell(cell, next).0[..0] == [];
    case Sub(root) =>
      if root.Root? {
        assert root.tree < root;
        WalkNumbers(root.tree, next);
      }
  }

  lemma {:induction false} NodesNumbers(nodes: seq<Node>, next: Pgno)
    requires SoundNodes(nodes)
    ensures var r := WalkNodes(nodes, next); Numbered(r.out, next, r.next) && r.next == next + NodesCount(nodes)
    decreases nodes, 0
  {
    if nodes != [] {
      var n := |nodes| - 1;
      var node := nodes[n];
      NodesNumbers(nodes[..n], next);
      var r := WalkNodes(nodes[..n], next);
      var (out, _, next') := WalkCell(node.cell, r.next);
      assert node.cell < node;
      CellNumbers(node.cell, r.next);
      NumberedAppend(r.out, out, next, r.next, next');
    }
  }

  lemma {:induction false} KidsNumbers(kids: seq<Kid>, next: Pgno)
    requires SoundKids(kids)
    ensures var r := WalkKids(kids, next); Numbered(r.out, next, r.next) && r.next == next + KidsCount(kids)
    decreases kids, 0
  {
    if kids != [] {
      var n := |kids| - 1;
      var kid := kids[n];
      assert kid.sub < kid;
      KidsNumbers(kids[..n], next);
      var r := WalkKids(kids[..n], next);
      WalkNumbers(kid.sub, r.next);
      NumberedAppend(r.out, Walk(kid.sub, r.next).out, next, r.next, Walk(kid.sub, r.next).next);
    }
  }

  /**
   The copy is written from start to end: what comes first has the first number, and what comes next
   has the number after the pages of the one before it, n of them for an overflow run.
   */
  lemma {:induction false} WalkIsConsecutive(t: Tree, next: Pgno, i: nat)
    requires Sound(t) && i < |Walk(t, next).out|
    ensures var out := Walk(t, next).out;
            && (i == 0 ==> out[i].pg == next)
            && (i + 1 < |out| ==> out[i + 1].pg == out[i].pg + if out[i].page.RawOver? then out[i].page.n else 1)
            && (i + 1 == |out| ==> out[i].pg == Walk(t, next).pg && !out[i].page.RawOver?)
  {
    WalkNumbers(t, next);
    Consecutive(Walk(t, next).out, next, Walk(t, next).next, i);
  }

  lemma {:induction false} Consecutive(out: seq<Out>, lo: Pgno, hi: Pgno, i: nat)
    requires Numbered(out, lo, hi) && i < |out|
    ensures i == 0 ==> out[i].pg == lo
    ensures (if i + 1 < |out| then out[i + 1].pg else hi) == out[i].pg + if out[i].page.RawOver? then out[i].page.n else 1
  {
    var n := |out| - 1;
    if i < n { Consecutive(out[..n], lo, out[n].pg, i); }
  }

  // ---- Contents ------------------------------------------------------------------------------

  /** The file has a page under a number. */
  ghost predicate Holds(out: seq<Out>, pg: Pgno, page: Raw) {
    exists i :: 0 <= i < |out| && out[i] == Out(pg, page)
  }

  lemma HoldsMore(a: seq<Out>, out: seq<Out>, b: seq<Out>, pg: Pgno, page: Raw)
    requires Holds(out, pg, page)
    ensures Holds(a + out + b, pg, page)
  {
    var i :| 0 <= i < |out| && out[i] == Out(pg, page);
    assert (a + out + b)[|a| + i] == Out(pg, page);
  }

  lemma {:induction false} NumbersGrow(out: seq<Out>, lo: Pgno, hi: Pgno, i: nat)
    requires Numbered(out, lo, hi) && i < |out|
    ensures lo <= out[i].pg < hi && (i < |out| - 1 ==> out[i].pg < out[|out| - 1].pg)
    ensures lo <= hi
  {
    var n := |out| - 1;
    if i < n { NumbersGrow(out[..n], lo, out[n].pg, i); }
    else if n > 0 { NumbersGrow(out[..n], lo, out[n].pg, 0); }
  }

  /** No number is used twice, so a number read back gives one page. */
  lemma {:induction false} OnePage(out: seq<Out>, lo: Pgno, hi: Pgno, pg: Pgno, page: Raw, page': Raw)
    requires Numbered(out, lo, hi) && Holds(out, pg, page) && Holds(out, pg, page')
    ensures page == page'
  {
    var i :| 0 <= i < |out| && out[i] == Out(pg, page);
    var j :| 0 <= j < |out| && out[j] == Out(pg, page');
    var n := |out| - 1;
    NumbersGrow(out, lo, hi, i);
    NumbersGrow(out, lo, hi, j);
    if i < n && j < n {
      assert out[..n][i] == out[i] && out[..n][j] == out[j];
      OnePage(out[..n], lo, out[n].pg, pg, page, page');
    }
  }

  /** Read from page c on, the file holds the tree: same keys, same data, every pointer leading to a copy. */
  ghost predicate CopyOf(out: seq<Out>, c: Pgno, t: Tree)
    decreases t, 1
  {
    match t
    case Leaf(_, nodes) => exists rs :: Holds(out, c, RawLeaf(rs)) && NodesCopied(out, rs, nodes)
    case Branch(_, kids) => exists rs :: Holds(out, c, RawBranch(rs)) && KidsCopied(out, rs, kids)
  }

  ghost predicate CellCopied(out: seq<Out>, raw: RawCell, cell: Cell)
    decreases cell, 2
  {
    match cell
    case Inline(body) => raw == RawInline(body)
    case Big(_, n, data) => raw.RawBig? && Holds(out, raw.pg, RawOver(n, data))
    case Sub(root) =>
      raw.RawSub? &&
      if root.Invalid? then raw.root == P_INVALID else (assert root.tree < root; CopyOf(out, raw.root, root.tree))
  }

  ghost predicate NodesCopied(out: seq<Out>, rs: seq<RawNode>, nodes: seq<Node>)
    decreases nodes, 0
  {
    |rs| == |nodes| && forall i :: 0 <= i < |nodes| ==>
      rs[i].key == nodes[i].key && (assert nodes[i].cell < nodes[i]; CellCopied(out, rs[i].cell, nodes[i].cell))
  }

  ghost predicate KidsCopied(out: seq<Out>, rs: seq<RawKid>, kids: seq<Kid>)
    decreases kids, 0
  {
    |rs| == |kids| && forall i :: 0 <= i < |kids| ==>
      rs[i].key == kids[i].key && (assert kids[i].sub < kids[i]; CopyOf(out, rs[i].pg, kids[i].sub))
  }

  /** More pages around it do not disturb a copy. */
  lemma {:induction false} CopyMore(a: seq<Out>, out: seq<Out>, b: seq<Out>, c: Pgno, t: Tree)
    requires CopyOf(out, c, t)
    ensures CopyOf(a + out + b, c, t)
    decreases t, 1
  {
    match t
    case Leaf(_, nodes) =>
      var rs :| Holds(out, c, RawLeaf(rs)) && NodesCopied(out, rs, nodes);
      HoldsMore(a, out, b, c, RawLeaf(rs));
      NodesMore(a, out, b, rs, nodes);
    case Branch(_, kids) =>
      var rs :| Holds(out, c, RawBranch(rs)) && KidsCopied(out, rs, kids);
      HoldsMore(a, out, b, c, RawBranch(rs));
      KidsMore(a, out, b, rs, kids);
  }

  lemma {:induction false} CellMore(a: seq<Out>, out: seq<Out>, b: seq<Out>, raw: RawCell, cell: Cell)
    requires CellCopied(out, raw, cell)
    ensures CellCopied(a + out + b, raw, cell)
    decreases cell, 2
  {
    match cell
    case Inline(_) =>
    case Big(_, n, data) => HoldsMore(a, out, b, raw.pg, RawOver(n, data));
    case Sub(root) =>
      if root.Root? {
        assert root.tree < root;
        CopyMore(a, out, b, raw.root, root.tree);
      }
  }

  lemma {:induction false} NodesMore(a: seq<Out>, out: seq<Out>, b: seq<Out>, rs: seq<RawNode>, nodes: seq<Node>)
    requires NodesCopied(out, rs, nodes)
    ensures NodesCopied(a + out + b, rs, nodes)
    decreases nodes, 0
  {
    forall i | 0 <= i < |nodes| ensures CellCopied(a + out + b, rs[i].cell, nodes[i].cell) {
      assert nodes[i].cell < nodes[i];
      CellMore(a, out, b, rs[i].cell, nodes[i].cell);
    }
  }

  lemma {:induction false} KidsMore(a: seq<Out>, out: seq<Out>, b: seq<Out>, rs: seq<RawKid>, kids: seq<Kid>)
    requires KidsCopied(out, rs, kids)
    ensures KidsCopied(a + out + b, rs, kids)
    decreases kids, 0
  {
    forall i | 0 <= i < |kids| ensures CopyOf(a + out + b, rs[i].pg, kids[i].sub) {
      assert kids[i].sub < kids[i];
      CopyMore(a, out, b, rs[i].pg, kids[i].sub);
    }
  }

  /** The walk writes a copy of the tree, under the number it returns. */
  lemma {:induction false} WalkCopies(t: Tree, next: Pgno)
    ensures CopyOf(Walk(t, next).out, Walk(t, next).pg, t)
    decreases t, 1
  {
    match t
    case Leaf(_, nodes) =>
      NodesCopy(nodes, next);
      var r := WalkNodes(nodes, next);
      var last := Out(r.next, RawLeaf(r.nodes));
      NodesMore([], r.out, [last], r.nodes, nodes);
      assert [] + r.out + [last] == r.out + [last];
      assert (r.out + [last])[|r.out|] == last;
      assert Holds(r.out + [last], r.next, RawLeaf(r.nodes));
    case Branch(_, kids) =>
      KidsCopy(kids, next);
      var r := WalkKids(kids, next);
      var last := Out(r.next, RawBranch(r.kids));
      KidsMore([], r.out, [last], r.kids, kids);
      assert [] + r.out + [last] == r.out + [last];
      assert (r.out + [last])[|r.out|] == last;
      assert Holds(r.out + [last], r.next, RawBranch(r.kids));
  }

  lemma {:induction false} CellCopy(cell: Cell, next: Pgno)
    ensures CellCopied(WalkCell(cell, next).0, WalkCell(cell, next).1, cell)
    decreases cell, 2
  {
    match cell
    case Inline(_) =>
    case Big(_, n, data) => assert WalkCell(cell, next).0[0] == Out(next, RawOver(n, data));
    case Sub(root) =>
      if root.Root? {
        assert root.tree < root;
        WalkCopies(root.tree, next);
      }
  }

  lemma {:induction false} NodesCopy(nodes: seq<Node>, next: Pgno)
    ensures NodesCopied(WalkNodes(nodes, next).out, WalkNodes(nodes, next).nodes, nodes)
    decreases nodes, 0
  {
    if nodes != [] {
      var n := |nodes| - 1;
      var node := nodes[n];
      assert node.cell < node;
      var r := WalkNodes(nodes[..n], next);
      var (out, cell, _) := WalkCell(node.cell, r.next);
      NodesCopy(nodes[..n], next);
      CellCopy(node.cell, r.next);
      NodesMore([], r.out, out, r.nodes, nodes[..n]);
      CellMore(r.out, out, [], cell, node.cell);
      assert [] + r.out + out == r.out + out && r.out + out + [] == r.out + out;
    }
  }

  lemma {:induction false} KidsCopy(kids: seq<Kid>, next: Pgno)
    ensures KidsCopied(WalkKids(kids, next).out, WalkKids(kids, next).kids, kids)
    decreases kids, 0
  {
    if kids != [] {
      var n := |kids| - 1;
      var kid := kids[n];
      assert kid.sub < kid;
      var r := WalkKids(kids[..n], next);
      var w := Walk(kid.sub, r.next);
      KidsCopy(kids[..n], next);
      WalkCopies(kid.sub, r.next);
      KidsMore([], r.out, w.out, r.kids, kids[..n]);
      CopyMore(r.out, w.out, [], w.pg, kid.sub);
      assert [] + r.out + w.out == r.out + w.out && r.out + w.out + [] == r.out + w.out;
    }
  }

  // ---- The number written in advance ---------------------------------------------------------

  /** The root number mdb_env_copyfd1 writes before the walk: mm_last_pg. */
  function LastPage(nextPgno: Pgno, freecount: nat): int {
    nextPgno - freecount - 1
  }

  /**
   If the pages of the file are the main tree's and the ones counted as free, the number written
   in advance is the one the walk gives the root; this holds exactly when the main tree is not empty.
   */
  lemma {:induction false} RootIsLastPage(main: Root, nextPgno: Pgno, freecount: nat)
    requires main.Root? ==> Sound(main.tree)
    requires nextPgno == 2 + (if main.Invalid? then 0 else PageCount(main.tree)) + freecount && nextPgno < P_INVALID
    ensures WalkRoot(main, 2).pg == LastPage(nextPgno, freecount) <==> main.Root?
    ensures main.Root? ==> WalkRoot(main, 2).next == LastPage(nextPgno, freecount) + 1
  {
    if main.Root? { WalkNumbers(main.tree, 2); }
  }
}
