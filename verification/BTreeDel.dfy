/**
 Deleting a binding: mdb_cursor_del on the leaf, then mdb_rebalance up the tree, which moves
 one node from a neighbour (mdb_node_move) or merges two pages (mdb_page_merge), and finally
 the collapse of the root.

 In mdb_rebalance the page that lost a node borrows from or merges with its left neighbour,
 or with its right one when it is the first child; here the two pages are always called
 `left` and `right`.
 */
module BTreeDel {
  import opened BTree
  import opened BTreeSearch
  import opened PagePool
  import opened BTreePut

  const FILL_THRESHOLD := 250

  /** PAGEFILL: the share of the page in use, in tenths of a percent. */
  function PageFill(env: Env, t: Tree): int
    requires env.PMax() > 0
  {
    1000 * Used(env, t) / env.PMax()
  }

  function MinKeys(t: Tree): nat { if t.Branch? then 2 else 1 }

  predicate Underfull(env: Env, t: Tree)
    requires env.PMax() > 0
  {
    !(PageFill(env, t) >= FILL_THRESHOLD && NumKeys(t) >= MinKeys(t))
  }

  /** A neighbour that can spare a node. */
  predicate CanSpare(env: Env, t: Tree)
    requires env.PMax() > 0
  {
    PageFill(env, t) >= FILL_THRESHOLD && NumKeys(t) > MinKeys(t)
  }

  /** mdb_page_touch */
  function TouchPage(pg: Pgno, p: Pool): (Pgno, Pool) {
    if pg in p.dirty then (pg, p)
    else
      var (np, p') := Take(p);
      (np, Free(p', pg))
  }

  function WithPage(t: Tree, pg: Pgno): Tree {
    match t case Leaf(_, items) => Leaf(pg, items) case Branch(_, kids) => Branch(pg, kids)
  }

  /** The first key below a page (mdb_page_search_lowest). */
  function Lowest(t: Tree): Key
    decreases t
  {
    match t
    case Leaf(_, items) => if items == [] then 0 else items[0].key
    case Branch(_, kids) =>
      if kids == [] then 0
      else
        var kid := kids[0];
        assert kid.sub < kid;
        Lowest(kid.sub)
  }

  /** The nodes of two neighbouring branches in one row: the empty key in the middle is filled in. */
  function JoinKids(left: seq<Kid>, right: seq<Kid>): seq<Kid> {
    if right == [] then left else left + [Kid(At(Lowest(right[0].sub)), right[0].sub)] + right[1..]
  }

  /** What becomes of two neighbouring pages. */
  datatype Evened = Merged(t: Tree, p: Pool) | Moved(left: Tree, sep: Key, right: Tree, p: Pool) | PageFull

  /** mdb_page_merge: the nodes of the right page are added to the left one, which is touched. */
  function Merge(env: Env, left: Tree, right: Tree, p: Pool): Evened {
    var (pg, p1) := TouchPage(left.pg, p);
    var p2 := Loosen(p1, right.pg);
    if left.Leaf? && right.Leaf? then
      var t := Leaf(pg, left.items + right.items);
      if Used(env, t) <= env.PMax() then Merged(t, p2.(leaf := p2.leaf - 1)) else PageFull
    else if left.Branch? && right.Branch? then
      var t := Branch(pg, JoinKids(left.kids, right.kids));
      if Used(env, t) <= env.PMax() then Merged(t, p2.(branch := p2.branch - 1)) else PageFull
    else PageFull
  }

  /**
   Give the first `s` nodes of the two pages to the left one, the others to the right one. The
   first key of a right branch is emptied last, so there must be room for it at first.
   */
  function Divide(env: Env, lpg: Pgno, left: Tree, rpg: Pgno, right: Tree, s: nat, p: Pool): Evened {
    if left.Leaf? && right.Leaf? then
      var items := left.items + right.items;
      if 0 < s < |items| then
        var l, r := Leaf(lpg, items[..s]), Leaf(rpg, items[s..]);
        if Used(env, l) <= env.PMax() && Used(env, r) <= env.PMax() then Moved(l, items[s].key, r, p) else PageFull
      else PageFull
    else if left.Branch? && right.Branch? then
      var kids := JoinKids(left.kids, right.kids);
      if 0 < s < |kids| && kids[s].sep.At? then
        var l, r := Branch(lpg, kids[..s]), Branch(rpg, RightHalf(kids, s));
        if Used(env, l) <= env.PMax() && Used(env, Branch(rpg, kids[s..])) <= env.PMax() then
          Moved(l, kids[s].sep.key, r, p)
        else PageFull
      else PageFull
    else PageFull
  }

  /** mdb_node_move: both pages are touched, the source first, then one node changes sides. */
  function MoveLeft(env: Env, left: Tree, right: Tree, p: Pool): Evened {
    var (rpg, p1) := TouchPage(right.pg, p);
    var (lpg, p2) := TouchPage(left.pg, p1);
    Divide(env, lpg, left, rpg, right, NumKeys(left) + 1, p2)
  }

  function MoveRight(env: Env, left: Tree, right: Tree, p: Pool): Evened {
    var (lpg, p1) := TouchPage(left.pg, p);
    var (rpg, p2) := TouchPage(right.pg, p1);
    if NumKeys(left) == 0 then PageFull else Divide(env, lpg, left, rpg, right, NumKeys(left) - 1, p2)
  }

  /**
   The page after a deletion below it. `lost`: it has a node less than before, so the page above
   must look at its fill. A page whose new separator does not fit is split, as in an insertion.
   */
  datatype Shrunk = Shrunk(t: Tree, lost: bool, p: Pool)
                  | Swollen(left: Tree, sep: Key, right: Tree, p: Pool)
                  | NoSpace
                  | Broken

  function Outcome(g: Grown, p: Pool): Shrunk {
    match g
    case Same(t) => Shrunk(t, false, p)
    case Split(left, sep, right) => Swollen(left, sep, right, p)
    case Full => NoSpace
  }

  /** mdb_update_key has room: EVEN of the key length grows by no more than what is left. */
  predicate KeyFits(env: Env, pg: Pgno, kids: seq<Kid>, i: nat, sep: Key)
    requires i < |kids|
  {
    var delta := Even(env.ksize(sep)) - Even(SepSize(env, kids[i].sep));
    delta <= 0 || SizeLeft(env, Branch(pg, kids)) >= delta
  }

  /** mdb_rebalance of child i of a branch, after the child lost a node. */
  function Rebalance(env: Env, pg: Pgno, kids: seq<Kid>, i: nat, p: Pool): Shrunk
    requires env.PMax() > 0 && i < |kids| && |kids| >= 2
  {
    var m := if i == 0 then 1 else i;
    var left, right := kids[m - 1].sub, kids[m].sub;
    var neighbour := if i == 0 then right else left;
    if CanSpare(env, neighbour) then
      match if i == 0 then MoveLeft(env, left, right, p) else MoveRight(env, left, right, p)
      case Moved(l, sep, r, p') =>
        if KeyFits(env, pg, kids, m, sep) then
          Shrunk(Branch(pg, kids[m - 1 := Kid(kids[m - 1].sep, l)][m := Kid(At(sep), r)]), false, p')
        else
          // mdb_update_key deletes the node and splits the page to add it again (MDB_SPLIT_REPLACE)
          var rest := kids[..m - 1] + [Kid(kids[m - 1].sep, l)] + kids[m + 1..];
          var (g, p'') := SplitBranch(env, pg, rest, m, sep, r, p');
          Outcome(g, p'')
      case _ => Broken
    else
      match Merge(env, left, right, p)
      case Merged(t, p') => Shrunk(Branch(pg, kids[..m - 1] + [Kid(kids[m - 1].sep, t)] + kids[m + 1..]), true, p')
      case _ => Broken
  }

  /** Delete the binding of a key from the tree below a page. */
  function Del(env: Env, t: Tree, k: Key, p: Pool): Shrunk
    requires env.PMax() > 0 && Searchable(t)
    decreases t
  {
    match t
    case Leaf(pg, items) =>
      var i := Position(items, k);
      if i < |items| then
        var p' := if items[i].store.Overflow? then FreeRun(p, items[i].store.pg, items[i].store.n) else p;
        Shrunk(Leaf(pg, items[..i] + items[i + 1..]), true, p')
      else Broken
    case Branch(pg, kids) =>
      var i := ChildAt(kids, k);
      var kid := kids[i];
      assert kid.sub < kid;
      Above(env, pg, kids, i, Del(env, kid.sub, k, p))
  }

  /** The page above child i, given what a deletion made of the child. */
  function Above(env: Env, pg: Pgno, kids: seq<Kid>, i: nat, r: Shrunk): Shrunk
    requires env.PMax() > 0 && i < |kids|
  {
    match r
    case Shrunk(sub, lost, p) => Settle(env, pg, kids, i, sub, lost, p)
    case Swollen(left, sep, right, p) =>
      var (g, p') := AddKid(env, pg, kids[i := Kid(kids[i].sep, left)], i + 1, sep, right, p);
      Outcome(g, p')
    case NoSpace => NoSpace
    case Broken => Broken
  }

  function Settle(env: Env, pg: Pgno, kids: seq<Kid>, i: nat, sub: Tree, lost: bool, p: Pool): Shrunk
    requires env.PMax() > 0 && i < |kids|
  {
    var kids' := kids[i := Kid(kids[i].sep, sub)];
    if lost && Underfull(env, sub) then
      if |kids| < 2 then Broken else Rebalance(env, pg, kids', i, p)
    else Shrunk(Branch(pg, kids'), false, p)
  }
}
