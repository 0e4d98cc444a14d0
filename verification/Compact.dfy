/**
 The compacting copy: mdb_env_cwalk writes the pages of a tree in post-order under new numbers,
 rewriting every pointer, and mdb_env_copyfd1 writes the number of the root in advance.
 */
module Compact {
  // A page here is what the copy looks at: whole trees of databases nested in leaf nodes, and data
  // that is carried along unread. `BTree` has neither, and has sizes and key order instead.

  type Pgno = nat

  /** The data of a leaf node: on the page, on a run of n overflow pages, or a sub-database. */
  datatype Cell = Inline(body: int) | Big(pg: Pgno, n: nat, data: int) | Sub(root: Root)

  datatype Node = Node(key: int, cell: Cell)

  datatype Kid = Kid(key: int, sub: Tree)

  datatype Tree = Leaf(pg: Pgno, nodes: seq<Node>) | Branch(pg: Pgno, kids: seq<Kid>)

  datatype Root = Invalid | Root(tree: Tree)

  /** Pages as they are in the copy: they refer to each other by number. */
  datatype RawCell = RawInline(body: int) | RawBig(pg: Pgno) | RawSub(root: Pgno)

  datatype RawNode = RawNode(key: int, cell: RawCell)

  datatype RawKid = RawKid(key: int, pg: Pgno)

  datatype Raw = RawLeaf(nodes: seq<RawNode>) | RawBranch(kids: seq<RawKid>) | RawOver(n: nat, data: int)

  datatype Out = Out(pg: Pgno, page: Raw)

  /** P_INVALID, the root of an empty database. */
  const P_INVALID: Pgno := 0xFFFF_FFFF_FFFF_FFFF

  /** Branches have children, overflow runs have pages. */
  ghost predicate Sound(t: Tree)
    decreases t, 1
  {
    match t
    case Leaf(_, nodes) => SoundNodes(nodes)
    case Branch(_, kids) => |kids| > 0 && SoundKids(kids)
  }

  ghost predicate SoundNodes(nodes: seq<Node>)
    decreases nodes, 0
  {
    forall i :: 0 <= i < |nodes| ==> var node := nodes[i]; assert node.cell < node; SoundCell(node.cell)
  }

  ghost predicate SoundCell(cell: Cell)
    decreases cell, 2
  {
    match cell
    case Inline(_) => true
    case Big(_, n, _) => n > 0
    case Sub(root) => root.Root? ==> (assert root.tree < root; Sound(root.tree))
  }

  ghost predicate SoundKids(kids: seq<Kid>)
    decreases kids, 0
  {
    forall i :: 0 <= i < |kids| ==> var kid := kids[i]; assert kid.sub < kid; Sound(kid.sub)
  }

  // ---- The walk, as a recursion --------------------------------------------------------------

  /** The pages written for a tree from number `next` on, the tree's own number, and the next number. */
  datatype Walked = Walked(out: seq<Out>, pg: Pgno, next: Pgno)

  datatype Nodes = Nodes(out: seq<Out>, nodes: seq<RawNode>, next: Pgno)

  datatype Kids = Kids(out: seq<Out>, kids: seq<RawKid>, next: Pgno)

  function Walk(t: Tree, next: Pgno): Walked
    decreases t, 1
  {
    match t
    case Leaf(_, nodes) =>
      var r := WalkNodes(nodes, next);
      Walked(r.out + [Out(r.next, RawLeaf(r.nodes))], r.next, r.next + 1)
    case Branch(_, kids) =>
      var r := WalkKids(kids, next);
      Walked(r.out + [Out(r.next, RawBranch(r.kids))], r.next, r.next + 1)
  }

  function WalkRoot(root: Root, next: Pgno): Walked
    decreases root, 2
  {
    if root.Invalid? then Walked([], P_INVALID, next) else Walk(root.tree, next)
  }

  function WalkCell(cell: Cell, next: Pgno): (seq<Out>, RawCell, Pgno)
    decreases cell, 3
  {
    match cell
    case Inline(body) => ([], RawInline(body), next)
    case Big(_, n, data) => ([Out(next, RawOver(n, data))], RawBig(next), next + n)
    case Sub(root) =>
      var r := WalkRoot(root, next);
      (r.out, RawSub(r.pg), r.next)
  }

  function WalkNodes(nodes: seq<Node>, next: Pgno): Nodes
    decreases nodes, 0
  {
    if nodes == [] then Nodes([], [], next)
    else
      var node := nodes[|nodes| - 1];
      var r := WalkNodes(nodes[..|nodes| - 1], next);
      assert node.cell < node;
      var (out, cell, next') := WalkCell(node.cell, r.next);
      Nodes(r.out + out, r.nodes + [RawNode(node.key, cell)], next')
  }

  function WalkKids(kids: seq<Kid>, next: Pgno): Kids
    decreases kids, 0
  {
    if kids == [] then Kids([], [], next)
    else
      var kid := kids[|kids| - 1];
      assert kid.sub < kid;
      var r := WalkKids(kids[..|kids| - 1], next);
      var w := Walk(kid.sub, r.next);
      Kids(r.out + w.out, r.kids + [RawKid(kid.key, w.pg)], w.next)
  }

  // ---- The walk, with a stack ----------------------------------------------------------------

  /** A branch page on the stack, copied so that its pointers can be rewritten, and the index in it. */
  datatype Frame = Frame(tree: Tree, raw: seq<RawKid>, ki: nat)

  function OldKids(kids: seq<Kid>): (r: seq<RawKid>)
    ensures |r| == |kids| && forall j :: 0 <= j < |r| ==> r[j].key == kids[j].key
  {
    seq(|kids|, j requires 0 <= j < |kids| => RawKid(kids[j].key, kids[j].sub.pg))
  }

  /** The first n children of the frame's page are written; its pointers to them are rewritten. */
  ghost predicate FrameOk(f: Frame, start: Pgno, n: nat) {
    && f.tree.Branch? && f.ki < |f.tree.kids| && n <= |f.tree.kids| && |f.raw| == |f.tree.kids|
    && (forall j :: 0 <= j < |f.raw| ==> f.raw[j].key == f.tree.kids[j].key)
    && f.raw[..n] == WalkKids(f.tree.kids[..n], start).kids
  }

  /** The pages on the stack lead from the root down, each being child `ki` of the one above. */
  ghost predicate Stacked(fs: seq<Frame>, starts: seq<Pgno>, root: Tree, next: Pgno) {
    && |fs| == |starts| && Indexed(fs)
    && (forall i :: 0 <= i < |fs| ==> fs[i].tree.Branch? && fs[i].ki < |fs[i].tree.kids| && Sound(fs[i].tree))
    && (fs != [] ==> fs[0].tree == root && starts[0] == next)
    && (forall i :: 0 < i < |fs| ==> fs[i].tree == fs[i - 1].tree.kids[fs[i - 1].ki].sub)
    && (forall i :: 0 < i < |fs| ==> starts[i] == WalkKids(fs[i - 1].tree.kids[..fs[i - 1].ki], starts[i - 1]).next)
    && (forall i :: 0 <= i < |fs| - 1 ==> FrameOk(fs[i], starts[i], fs[i].ki))
  }

  /** The pages written for the children before those being walked. */
  ghost function OutOf(fs: seq<Frame>, starts: seq<Pgno>): seq<Out>
    requires |fs| == |starts| && Indexed(fs)
  {
    if fs == [] then []
    else
      var n := |fs| - 1;
      OutOf(fs[..n], starts[..n]) + WalkKids(fs[n].tree.kids[..fs[n].ki], starts[n]).out
  }

  /** The tree below the top of the stack, and the number its pages start at. */
  ghost function Below(fs: seq<Frame>, starts: seq<Pgno>, root: Tree, next: Pgno): (Tree, Pgno)
    requires Stacked(fs, starts, root, next)
  {
    if fs == [] then (root, next)
    else
      var f, s := fs[|fs| - 1], starts[|fs| - 1];
      (f.tree.kids[f.ki].sub, WalkKids(f.tree.kids[..f.ki], s).next)
  }

  /** How many tree nodes there are. */
  ghost function Count(t: Tree): nat
    decreases t, 1
  {
    match t case Leaf(_, _) => 1 case Branch(_, kids) => 1 + CountKids(kids)
  }

  ghost function CountKids(kids: seq<Kid>): nat
    decreases kids, 0
  {
    if kids == [] then 0
    else
      var kid := kids[0];
      assert kid.sub < kid;
      Count(kid.sub) + CountKids(kids[1..])
  }

  /** The tree nodes right of the path on the stack. */
  ghost function Rest(fs: seq<Frame>): nat
    requires Indexed(fs)
  {
    if fs == [] then 0
    else
      var f := fs[|fs| - 1];
      Rest(fs[..|fs| - 1]) + CountKids(f.tree.kids[f.ki + 1..])
  }

  lemma NotEmpty(t: Tree)
    requires t.Branch? && Sound(t)
    ensures |t.kids| > 0
  {
  }

  lemma WalkNoKids(next: Pgno)
    ensures WalkKids([], next) == Kids([], [], next)
  {
  }

  lemma CountFirst(t: Tree)
    requires t.Branch? && |t.kids| > 0
    ensures Count(t) == 1 + Count(t.kids[0].sub) + CountKids(t.kids[1..])
  {
  }

  lemma PushedStack(fs: seq<Frame>, starts: seq<Pgno>, root: Tree, next: Pgno, t: Tree, f: Frame)
    requires Stacked(fs, starts, root, next) && t == Below(fs, starts, root, next).0 && t.Branch? && Sound(t)
    requires fs != [] ==> FrameOk(fs[|fs| - 1], starts[|fs| - 1], fs[|fs| - 1].ki)
    requires f.tree == t && f.ki == 0 && |t.kids| > 0
    ensures Stacked(fs + [f], starts + [Below(fs, starts, root, next).1], root, next)
  {
    hide Sound, Walk, WalkKids, FrameOk;
    var gs, ss := fs + [f], starts + [Below(fs, starts, root, next).1];
    assert forall i :: 0 <= i < |fs| ==> gs[i] == fs[i] && ss[i] == starts[i];
  }

  /** Pushing a page whose first child is to be walked. */
  lemma {:induction false} PushedFrame(fs: seq<Frame>, starts: seq<Pgno>, root: Tree, next: Pgno, t: Tree)
    requires Stacked(fs, starts, root, next) && t == Below(fs, starts, root, next).0 && t.Branch? && Sound(t)
    requires fs != [] ==> FrameOk(fs[|fs| - 1], starts[|fs| - 1], fs[|fs| - 1].ki)
    ensures var f := Frame(t, OldKids(t.kids), 0); var s := Below(fs, starts, root, next).1;
            && Stacked(fs + [f], starts + [s], root, next) && FrameOk(f, s, 0)
            && Below(fs + [f], starts + [s], root, next) == (t.kids[0].sub, s)
            && OutOf(fs + [f], starts + [s]) == OutOf(fs, starts)
            && Rest(fs + [f]) + Count(t.kids[0].sub) + 1 == Rest(fs) + Count(t)
  {
    hide Sound, OldKids, Walk, WalkKids, Stacked, Count, CountKids;
    NotEmpty(t);
    var f := Frame(t, OldKids(t.kids), 0);
    var s := Below(fs, starts, root, next).1;
    var gs, ss := fs + [f], starts + [s];
    PushedStack(fs, starts, root, next, t, f);
    StackedIndexed(fs, starts, root, next);
    StackedIndexed(gs, ss, root, next);
    assert gs[..|fs|] == fs && ss[..|fs|] == starts;
    assert t.kids[..0] == [];
    WalkNoKids(s);
    CountFirst(t);
  }

  lemma StackedIndexed(fs: seq<Frame>, starts: seq<Pgno>, root: Tree, next: Pgno)
    requires Stacked(fs, starts, root, next)
    ensures |fs| == |starts| && Indexed(fs)
  {
  }

  /** Proceed to the first leaf below a page, copying the branches on the way. */
  method Descend(t: Tree, fs0: seq<Frame>, ghost starts0: seq<Pgno>, ghost root: Tree, ghost next: Pgno)
    returns (leaf: Tree, fs: seq<Frame>, ghost starts: seq<Pgno>)
    requires Sound(t) && Stacked(fs0, starts0, root, next) && t == Below(fs0, starts0, root, next).0
    requires fs0 != [] ==> FrameOk(fs0[|fs0| - 1], starts0[|fs0| - 1], fs0[|fs0| - 1].ki)
    ensures leaf.Leaf? && Sound(leaf) && Stacked(fs, starts, root, next) && leaf == Below(fs, starts, root, next).0
    ensures fs != [] ==> FrameOk(fs[|fs| - 1], starts[|fs| - 1], fs[|fs| - 1].ki)
    ensures Below(fs, starts, root, next).1 == Below(fs0, starts0, root, next).1 && OutOf(fs, starts) == OutOf(fs0, starts0)
    ensures Rest(fs) + Count(leaf) <= Rest(fs0) + Count(t)
    ensures t.Leaf? ==> fs == fs0
    ensures t.Branch? ==> Rest(fs) + Count(leaf) < Rest(fs0) + Count(t)
  {
    hide OutOf, Rest, Count, FrameOk, WalkKids;
    leaf, fs, starts := t, fs0, starts0;
    while leaf.Branch?
      invariant Sound(leaf) && Stacked(fs, starts, root, next) && leaf == Below(fs, starts, root, next).0
      invariant fs != [] ==> FrameOk(fs[|fs| - 1], starts[|fs| - 1], fs[|fs| - 1].ki)
      invariant Below(fs, starts, root, next).1 == Below(fs0, starts0, root, next).1 && OutOf(fs, starts) == OutOf(fs0, starts0)
      invariant Rest(fs) + Count(leaf) <= Rest(fs0) + Count(t)
      invariant t.Leaf? ==> leaf == t && fs == fs0
      invariant leaf == t || Rest(fs) + Count(leaf) < Rest(fs0) + Count(t)
      decreases leaf
    {
      PushedFrame(fs, starts, root, next, leaf);
      ghost var s := Below(fs, starts, root, next).1;
      fs, starts := fs + [Frame(leaf, OldKids(leaf.kids), 0)], starts + [s];
      var kid := leaf.kids[0];
      assert kid.sub < kid;
      leaf := kid.sub;
    }
  }

  lemma {:induction false} Shorter(fs: seq<Frame>, starts: seq<Pgno>, root: Tree, next: Pgno)
    requires Stacked(fs, starts, root, next) && fs != []
    ensures var n := |fs| - 1;
            && Stacked(fs[..n], starts[..n], root, next)
            && Below(fs[..n], starts[..n], root, next) == (fs[n].tree, starts[n])
            && (n > 0 ==> FrameOk(fs[n - 1], starts[n - 1], fs[n - 1].ki))
            && Rest(fs) == Rest(fs[..n]) + CountKids(fs[n].tree.kids[fs[n].ki + 1..])
            && OutOf(fs, starts) == OutOf(fs[..n], starts[..n]) + WalkKids(fs[n].tree.kids[..fs[n].ki], starts[n]).out
  {
    hide FrameOk, WalkKids;
    var n := |fs| - 1;
    assert n > 0 ==> FrameOk(fs[n - 1], starts[n - 1], fs[n - 1].ki);
  }

  /** A page on the way is part of the tree, or the tree itself. */
  lemma {:induction false} Inside(fs: seq<Frame>, starts: seq<Pgno>, root: Tree, next: Pgno)
    requires Stacked(fs, starts, root, next)
    ensures Below(fs, starts, root, next).0 == root || Below(fs, starts, root, next).0 < root
    decreases |fs|
  {
    hide FrameOk, WalkKids, OutOf, Rest;
    if fs != [] {
      Shorter(fs, starts, root, next);
      Inside(fs[..|fs| - 1], starts[..|fs| - 1], root, next);
      var f := fs[|fs| - 1];
      var kid := f.tree.kids[f.ki];
      assert kid.sub < kid && kid < f.tree;
    }
  }

  lemma WalkLast(kids: seq<Kid>, n: nat, s: Pgno)
    requires n < |kids|
    ensures var r := WalkKids(kids[..n], s); var w := Walk(kids[n].sub, r.next);
            WalkKids(kids[..n + 1], s) == Kids(r.out + w.out, r.kids + [RawKid(kids[n].key, w.pg)], w.next)
  {
    assert kids[..n + 1][..n] == kids[..n];
  }

  /** Exchanging the top frame for one on the same page, at the same index. */
  lemma {:induction false} Retop(fs: seq<Frame>, starts: seq<Pgno>, root: Tree, next: Pgno, f: Frame)
    requires Stacked(fs, starts, root, next) && fs != []
    requires f.tree == fs[|fs| - 1].tree && f.ki < |f.tree.kids|
    ensures var n := |fs| - 1;
            && Stacked(fs[n := f], starts, root, next) && fs[n := f][..n] == fs[..n]
            && Below(fs[n := f], starts, root, next) == (f.tree.kids[f.ki].sub, WalkKids(f.tree.kids[..f.ki], starts[n]).next)
            && OutOf(fs[n := f], starts) == OutOf(fs[..n], starts[..n]) + WalkKids(f.tree.kids[..f.ki], starts[n]).out
            && Rest(fs[n := f]) == Rest(fs[..n]) + CountKids(f.tree.kids[f.ki + 1..])
  {
    hide FrameOk, WalkKids;
    var n := |fs| - 1;
    assert forall i :: 0 <= i < n ==> fs[n := f][i] == fs[i];
    assert fs[n := f][..n] == fs[..n];
    assert Stacked(fs[n := f], starts, root, next);
    hide Stacked;
  }

  /** The tree below the stack is written under number c: its parent's pointer is rewritten. */
  lemma {:induction false} Repointed(fs: seq<Frame>, starts: seq<Pgno>, root: Tree, next: Pgno, w: Walked)
    requires Stacked(fs, starts, root, next) && fs != [] && FrameOk(fs[|fs| - 1], starts[|fs| - 1], fs[|fs| - 1].ki)
    requires w == Walk(Below(fs, starts, root, next).0, Below(fs, starts, root, next).1)
    ensures var n := |fs| - 1; var f := fs[n];
            var g := f.(raw := f.raw[f.ki := RawKid(f.raw[f.ki].key, w.pg)]); var r := WalkKids(f.tree.kids[..f.ki + 1], starts[n]);
            && Stacked(fs[n := g], starts, root, next) && FrameOk(g, starts[n], f.ki + 1) && Rest(fs[n := g]) == Rest(fs)
            && r.next == w.next && OutOf(fs, starts) + w.out == OutOf(fs[..n], starts[..n]) + r.out
  {
    hide WalkKids, Walk, OutOf, Rest;
    var n := |fs| - 1;
    var f := fs[n];
    var g := f.(raw := f.raw[f.ki := RawKid(f.raw[f.ki].key, w.pg)]);
    WalkLast(f.tree.kids, f.ki, starts[n]);
    Shorter(fs, starts, root, next);
    Retop(fs, starts, root, next, g);
    assert g.raw[..f.ki + 1] == f.raw[..f.ki] + [g.raw[f.ki]];
    var a, b := OutOf(fs[..n], starts[..n]), WalkKids(f.tree.kids[..f.ki], starts[n]).out;
    assert (a + b) + w.out == a + (b + w.out);
  }

  /** mdb_env_cwalk's loop over the nodes of a leaf, and the walk of a whole tree. */
  method WalkLeaf(leaf: Tree, out0: seq<Out>, next0: Pgno) returns (out: seq<Out>, raw: seq<RawNode>, next: Pgno)
    requires leaf.Leaf? && Sound(leaf)
    ensures var r := WalkNodes(leaf.nodes, next0); out == out0 + r.out && raw == r.nodes && next == r.next
    decreases leaf, 0
  {
    out, raw, next := out0, [], next0;
    var i := 0;
    assert leaf.nodes[..0] == [];
    while i < |leaf.nodes|
      invariant i <= |leaf.nodes|
      invariant var r := WalkNodes(leaf.nodes[..i], next0); out == out0 + r.out && raw == r.nodes && next == r.next
      decreases |leaf.nodes| - i
    {
      var node := leaf.nodes[i];
      assert leaf.nodes[..i + 1][..i] == leaf.nodes[..i];
      assert SoundCell(node.cell);
      match node.cell {
      case Inline(body) =>
        raw := raw + [RawNode(node.key, RawInline(body))];
      case Big(_, n, data) =>
        out := out + [Out(next, RawOver(n, data))];
        raw := raw + [RawNode(node.key, RawBig(next))];
        next := next + n;
      case Sub(root) =>
        var pg;
        assert node.cell.root < node.cell && node.cell < node && node < leaf;
        out, pg, next := CWalk(root, out, next);
        raw := raw + [RawNode(node.key, RawSub(pg))];
      }
      i := i + 1;
    }
    assert leaf.nodes[..i] == leaf.nodes;
  }

  method CWalk(root: Root, out0: seq<Out>, next0: Pgno) returns (out: seq<Out>, pg: Pgno, next: Pgno)
    requires root.Root? ==> Sound(root.tree)
    ensures var w := WalkRoot(root, next0); out == out0 + w.out && pg == w.pg && next == w.next
    decreases root, 2
  {
    if root.Invalid? { return out0, P_INVALID, next0; }
    hide Stacked, FrameOk, WalkKids, OutOf, Rest, Count, AtLeaf, Backed, Below, WalkNodes, CountKids, Written, Sound, Walk, OldKids;
    ghost var t0 := root.tree;
    ghost var starts: seq<Pgno> := [];
    var fs: seq<Frame> := [];
    var leaf: Tree;
    Begins(t0, next0);
    leaf, fs, starts := Descend(root.tree, fs, starts, t0, next0);
    out, next := out0, next0;
    Arrived(fs, starts, t0, next0, leaf, out0, out, next);
    var back := false;
    while true
      invariant !back ==> AtLeaf(fs, starts, t0, next0, leaf, out0, out, next)
      invariant back ==> Backed(fs, starts, t0, next0, out0, out, next)
      invariant Indexed(fs)
      decreases Rest(fs) + (if back then 0 else Count(leaf)), |fs|, if back then 1 else 0
    {
      if !back {
        LeafFacts(fs, starts, t0, next0, leaf, out0, out, next);
        out, pg, next := WriteLeaf(fs, starts, t0, next0, leaf, out0, out, next);
      } else {
        BackFacts(fs, starts, t0, next0, out0, out, next);
        var top := fs[|fs| - 1];
        if top.ki + 1 < |top.tree.kids| {
          leaf, fs, starts := Advance(fs, starts, t0, next0, out0, out, next);
          back := false;
          continue;
        }
        BranchWritten(fs, starts, t0, next0, out0, out, next);
        fs, starts := fs[..|fs| - 1], starts[..|fs| - 1];
        out, pg, next := out + [Out(next, RawBranch(top.raw))], next, next + 1;
      }
      if fs == [] {
        Finished(fs, starts, t0, next0, out0, out, pg, next);
        return;
      }
      fs := Repoint(fs, starts, t0, next0, out0, out, pg, next);
      back := true;
    }
  }

  method WriteLeaf(ghost fs: seq<Frame>, ghost starts: seq<Pgno>, ghost root: Tree, ghost next0: Pgno, leaf: Tree,
                   ghost out0: seq<Out>, out1: seq<Out>, next1: Pgno)
    returns (out: seq<Out>, pg: Pgno, next: Pgno)
    requires AtLeaf(fs, starts, root, next0, leaf, out0, out1, next1) && leaf.Leaf? && Sound(leaf)
    ensures Written(fs, starts, root, next0, out0, out, pg, next)
    decreases leaf, 1
  {
    hide AtLeaf, Written, WalkNodes, Sound;
    LeafWritten(fs, starts, root, next0, leaf, out0, out1, next1);
    var raw;
    out, raw, next := WalkLeaf(leaf, out1, next1);
    out, pg, next := out + [Out(next, RawLeaf(raw))], next, next + 1;
  }

  /** On to the next child, and down to its first leaf. */
  method Advance(fs0: seq<Frame>, ghost starts0: seq<Pgno>, ghost root: Tree, ghost next0: Pgno, ghost out0: seq<Out>,
                 ghost out: seq<Out>, ghost next: Pgno)
    returns (leaf: Tree, fs: seq<Frame>, ghost starts: seq<Pgno>)
    requires Backed(fs0, starts0, root, next0, out0, out, next) && Indexed(fs0)
    requires fs0 != [] && fs0[|fs0| - 1].ki + 1 < |fs0[|fs0| - 1].tree.kids|
    ensures AtLeaf(fs, starts, root, next0, leaf, out0, out, next) && Indexed(fs)
    ensures Rest(fs) + Count(leaf) < Rest(fs0) || (Rest(fs) + Count(leaf) == Rest(fs0) && |fs| == |fs0|)
  {
    hide Stacked, FrameOk, OutOf, Rest, Count, AtLeaf, Backed, Below, Sound;
    BackFacts(fs0, starts0, root, next0, out0, out, next);
    Advanced(fs0, starts0, root, next0, out0, out, next);
    var top := fs0[|fs0| - 1];
    leaf, fs, starts := Descend(top.tree.kids[top.ki + 1].sub, fs0[|fs0| - 1 := top.(ki := top.ki + 1)], starts0, root, next0);
    Arrived(fs, starts, root, next0, leaf, out0, out, next);
  }

  /** The page just written has number c: rewrite the pointer to it in the page above. */
  method Repoint(fs0: seq<Frame>, ghost starts: seq<Pgno>, ghost root: Tree, ghost next0: Pgno, ghost out0: seq<Out>,
                 ghost out: seq<Out>, c: Pgno, ghost next: Pgno)
    returns (fs: seq<Frame>)
    requires fs0 != [] && Indexed(fs0) && Written(fs0, starts, root, next0, out0, out, c, next)
    ensures Backed(fs, starts, root, next0, out0, out, next) && Indexed(fs) && |fs| == |fs0| && Rest(fs) == Rest(fs0)
  {
    hide Stacked, FrameOk, OutOf, Rest, Written, Backed, Below, Sound;
    WentBack(fs0, starts, root, next0, out0, out, c, next);
    var f := fs0[|fs0| - 1];
    fs := fs0[|fs0| - 1 := f.(raw := f.raw[f.ki := RawKid(f.raw[f.ki].key, c)])];
  }

  ghost predicate Indexed(fs: seq<Frame>) {
    forall i :: 0 <= i < |fs| ==> fs[i].tree.Branch? && fs[i].ki < |fs[i].tree.kids|
  }

  /** The walk is at a leaf that is not written yet. */
  ghost predicate AtLeaf(fs: seq<Frame>, starts: seq<Pgno>, root: Tree, next0: Pgno, leaf: Tree, out0: seq<Out>, out: seq<Out>, next: Pgno) {
    && Stacked(fs, starts, root, next0) && (fs != [] ==> FrameOk(fs[|fs| - 1], starts[|fs| - 1], fs[|fs| - 1].ki))
    && leaf.Leaf? && Sound(leaf) && leaf == Below(fs, starts, root, next0).0
    && next == Below(fs, starts, root, next0).1 && out == out0 + OutOf(fs, starts)
  }

  /** The walk came back to a branch whose child `ki` was written. */
  ghost predicate Backed(fs: seq<Frame>, starts: seq<Pgno>, root: Tree, next0: Pgno, out0: seq<Out>, out: seq<Out>, next: Pgno) {
    && Stacked(fs, starts, root, next0) && fs != []
    && var n := |fs| - 1; var f := fs[n]; var r := WalkKids(f.tree.kids[..f.ki + 1], starts[n]);
       && FrameOk(f, starts[n], f.ki + 1)
       && next == r.next && out == out0 + (OutOf(fs[..n], starts[..n]) + r.out)
  }

  /** The tree below the stack is written whole, under number c. */
  ghost predicate Written(fs: seq<Frame>, starts: seq<Pgno>, root: Tree, next0: Pgno, out0: seq<Out>, out: seq<Out>, c: Pgno, next: Pgno) {
    && Stacked(fs, starts, root, next0) && (fs != [] ==> FrameOk(fs[|fs| - 1], starts[|fs| - 1], fs[|fs| - 1].ki))
    && var w := Walk(Below(fs, starts, root, next0).0, Below(fs, starts, root, next0).1);
       out == out0 + (OutOf(fs, starts) + w.out) && c == w.pg && next == w.next
  }

  lemma SoundKid(t: Tree, i: nat)
    requires t.Branch? && Sound(t) && i < |t.kids|
    ensures Sound(t.kids[i].sub)
  {
    var kid := t.kids[i];
    assert kid.sub < kid;
  }

  lemma Begins(root: Tree, next: Pgno)
    ensures Stacked([], [], root, next) && Below([], [], root, next) == (root, next) && OutOf([], []) == []
  {
  }

  lemma Arrived(fs: seq<Frame>, starts: seq<Pgno>, root: Tree, next0: Pgno, leaf: Tree, out0: seq<Out>, out: seq<Out>, next: Pgno)
    requires Stacked(fs, starts, root, next0) && (fs != [] ==> FrameOk(fs[|fs| - 1], starts[|fs| - 1], fs[|fs| - 1].ki))
    requires leaf.Leaf? && Sound(leaf) && leaf == Below(fs, starts, root, next0).0
    requires next == Below(fs, starts, root, next0).1 && out == out0 + OutOf(fs, starts)
    ensures AtLeaf(fs, starts, root, next0, leaf, out0, out, next) && Indexed(fs)
  {
  }

  lemma LeafFacts(fs: seq<Frame>, starts: seq<Pgno>, root: Tree, next0: Pgno, leaf: Tree, out0: seq<Out>, out: seq<Out>, next: Pgno)
    requires AtLeaf(fs, starts, root, next0, leaf, out0, out, next)
    ensures leaf.Leaf? && Sound(leaf) && (leaf == root || leaf < root) && Count(leaf) > 0
  {
    Inside(fs, starts, root, next0);
  }

  lemma LeafWritten(fs: seq<Frame>, starts: seq<Pgno>, root: Tree, next0: Pgno, leaf: Tree, out0: seq<Out>, out: seq<Out>, next: Pgno)
    requires AtLeaf(fs, starts, root, next0, leaf, out0, out, next)
    ensures var r := WalkNodes(leaf.nodes, next);
            Written(fs, starts, root, next0, out0, out + r.out + [Out(r.next, RawLeaf(r.nodes))], r.next, r.next + 1)
  {
    hide FrameOk, OutOf, Below, WalkNodes;
    var r := WalkNodes(leaf.nodes, next);
    var a, p := OutOf(fs, starts), [Out(r.next, RawLeaf(r.nodes))];
    assert out0 + a + r.out + p == out0 + (a + (r.out + p));
  }

  lemma BackFacts(fs: seq<Frame>, starts: seq<Pgno>, root: Tree, next0: Pgno, out0: seq<Out>, out: seq<Out>, next: Pgno)
    requires Backed(fs, starts, root, next0, out0, out, next)
    ensures |fs| == |starts| > 0 && fs[|fs| - 1].tree.Branch? && Indexed(fs)
  {
  }

  lemma {:induction false} Advanced(fs: seq<Frame>, starts: seq<Pgno>, root: Tree, next0: Pgno, out0: seq<Out>, out: seq<Out>, next: Pgno)
    requires Backed(fs, starts, root, next0, out0, out, next) && Indexed(fs)
    requires var f := fs[|fs| - 1]; f.tree.Branch? && f.ki + 1 < |f.tree.kids|
    ensures var n := |fs| - 1; var f := fs[n]; var g := f.(ki := f.ki + 1); var gs := fs[n := g]; var t := f.tree.kids[f.ki + 1].sub;
            && |starts| == |fs| && Stacked(gs, starts, root, next0) && Indexed(gs) && FrameOk(g, starts[n], g.ki)
            && Below(gs, starts, root, next0) == (t, next) && Sound(t)
            && out == out0 + OutOf(gs, starts) && Rest(gs) + Count(t) == Rest(fs)
  {
    hide WalkKids, OutOf, Rest;
    var n := |fs| - 1;
    var f := fs[n];
    var kids := f.tree.kids;
    Shorter(fs, starts, root, next0);
    Retop(fs, starts, root, next0, f.(ki := f.ki + 1));
    SoundKid(f.tree, f.ki + 1);
    assert kids[f.ki + 1..][0] == kids[f.ki + 1] && kids[f.ki + 1..][1..] == kids[f.ki + 2..];
  }

  lemma {:induction false} BranchWritten(fs: seq<Frame>, starts: seq<Pgno>, root: Tree, next0: Pgno, out0: seq<Out>, out: seq<Out>, next: Pgno)
    requires Backed(fs, starts, root, next0, out0, out, next) && Indexed(fs)
    requires fs[|fs| - 1].ki + 1 == |fs[|fs| - 1].tree.kids|
    ensures var n := |fs| - 1;
            && |starts| == |fs| && Indexed(fs[..n]) && Rest(fs[..n]) == Rest(fs)
            && Written(fs[..n], starts[..n], root, next0, out0, out + [Out(next, RawBranch(fs[n].raw))], next, next + 1)
  {
    hide WalkKids, OutOf, Rest;
    var n := |fs| - 1;
    var f := fs[n];
    Shorter(fs, starts, root, next0);
    assert f.tree.kids[..f.ki + 1] == f.tree.kids && f.raw[..f.ki + 1] == f.raw && f.tree.kids[f.ki + 1..] == [];
    var r := WalkKids(f.tree.kids, starts[n]);
    var a, p := OutOf(fs[..n], starts[..n]), [Out(next, RawBranch(f.raw))];
    assert out0 + (a + r.out) + p == out0 + (a + (r.out + p));
  }

  lemma Finished(fs: seq<Frame>, starts: seq<Pgno>, root: Tree, next0: Pgno, out0: seq<Out>, out: seq<Out>, c: Pgno, next: Pgno)
    requires fs == [] && Written(fs, starts, root, next0, out0, out, c, next)
    ensures var w := Walk(root, next0); out == out0 + w.out && c == w.pg && next == w.next
  {
    assert [] + Walk(root, next0).out == Walk(root, next0).out;
  }

  lemma {:induction false} WentBack(fs: seq<Frame>, starts: seq<Pgno>, root: Tree, next0: Pgno, out0: seq<Out>, out: seq<Out>, c: Pgno, next: Pgno)
    requires fs != [] && Indexed(fs) && Written(fs, starts, root, next0, out0, out, c, next)
    ensures var n := |fs| - 1; var f := fs[n];
            && f.ki < |f.raw|
            && var g := f.(raw := f.raw[f.ki := RawKid(f.raw[f.ki].key, c)]);
               Indexed(fs[n := g]) && Rest(fs[n := g]) == Rest(fs) && Backed(fs[n := g], starts, root, next0, out0, out, next)
  {
    hide WalkKids, OutOf, Rest;
    var n := |fs| - 1;
    var f := fs[n];
    var w := Walk(Below(fs, starts, root, next0).0, Below(fs, starts, root, next0).1);
    Repointed(fs, starts, root, next0, w);
    var g := f.(raw := f.raw[f.ki := RawKid(f.raw[f.ki].key, c)]);
    assert fs[n := g][..n] == fs[..n];
  }
}
