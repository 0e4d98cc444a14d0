/**
 Storing a binding: mdb_cursor_put on the leaf, mdb_page_split up the tree, a new root.

 The recursion follows the cursor's path from the root; a page that must be split hands its
 right half and the separator up to the page above, as mdb_page_split's own recursion does.
 */
module BTreePut {
  import opened BTree
  import opened BTreeSearch
  import opened PagePool
  import opened SplitPoint

  /** OVPAGES */
  function OverflowPages(env: Env, size: nat): nat
    requires env.psize > 0
  {
    (PAGE_HEADER - 1 + size) / env.psize + 1
  }

  /** The pages hold a page header and the value, and one page less would not. */
  lemma OverflowPagesHold(env: Env, size: nat)
    requires env.psize > 0
    ensures (OverflowPages(env, size) - 1) * env.psize < PAGE_HEADER + size <= OverflowPages(env, size) * env.psize
  {
    var a, b := PAGE_HEADER - 1 + size, env.psize;
    assert a == a / b * b + a % b;
    assert (a / b + 1) * b == a / b * b + b;
  }

  /** A run that is long enough has at least that many pages. */
  lemma LongEnough(env: Env, n: nat, size: nat)
    requires env.psize > 0
    ensures n >= OverflowPages(env, size) <==> PAGE_HEADER + size <= n * env.psize
  {
    OverflowPagesHold(env, size);
    var m, b := OverflowPages(env, size), env.psize;
    if n >= m {
      assert n * b == m * b + (n - m) * b;
    } else {
      assert (m - 1) * b == n * b + (m - 1 - n) * b;
    }
  }

  /** The page still stands, or gave up a right half, or a half did not fit (MDB_PAGE_FULL). */
  datatype Grown = Same(t: Tree) | Split(left: Tree, sep: Key, right: Tree) | Full

  /** The node mdb_node_add writes; data too large for a node goes to overflow pages. */
  function NewItem(env: Env, k: Key, v: Val, p: Pool): (Item, Pool)
    requires env.psize > 0
  {
    if NODE_HEADER + env.ksize(k) + v.size > env.NodeMax() then
      var n := OverflowPages(env, v.size);
      var (pg, p') := NewRun(p, n);
      (Item(k, v, Overflow(pg, n)), p')
    else (Item(k, v, Inline), p)
  }

  /** Add a node at index i of a leaf, splitting the page if there is no room. */
  function AddItem(env: Env, pg: Pgno, items: seq<Item>, i: nat, k: Key, v: Val, p: Pool): (Grown, Pool)
    requires i <= |items| && env.psize > 0
  {
    var (it, p1) := NewItem(env, k, v, p);
    var items' := items[..i] + [it] + items[i..];
    if SizeLeft(env, Leaf(pg, items)) >= LeafSize(env, k, v) then (Same(Leaf(pg, items')), p1)
    else if |items'| < 3 then (Full, p1)
    else
      var s := SplitIndex(ItemSizes(env, items'), i, env.PMax());
      var (rp, p2) := NewLeaf(p1);
      if 0 < s < |items'| then
        var left, right := Leaf(pg, items'[..s]), Leaf(rp, items'[s..]);
        if Used(env, left) <= env.PMax() && Used(env, right) <= env.PMax() then
          (Split(left, items'[s].key, right), p2)
        else (Full, p2)
      else (Full, p2)
  }

  /** mdb_cursor_put on the leaf the cursor found. */
  function PutLeaf(env: Env, pg: Pgno, items: seq<Item>, k: Key, v: Val, p: Pool): (Grown, Pool)
    requires env.psize > 0
  {
    var i := Position(items, k);
    if i < |items| && items[i].key == k then
      var it := items[i];
      if it.store.Overflow? then
        if it.store.n >= OverflowPages(env, v.size) && it.store.pg in p.dirty then
          (Same(Leaf(pg, items[i := it.(val := v)])), p)
        else AddItem(env, pg, items[..i] + items[i + 1..], i, k, v, FreeRun(p, it.store.pg, it.store.n))
      else if it.val.size == v.size then (Same(Leaf(pg, items[i := it.(val := v)])), p)
      else AddItem(env, pg, items[..i] + items[i + 1..], i, k, v, p)
    else AddItem(env, pg, items, i, k, v, p)
  }

  /** The right half of a branch: the key of its first node is emptied. */
  function RightHalf(kids: seq<Kid>, s: nat): seq<Kid>
    requires s < |kids|
  {
    [Kid(Empty, kids[s].sub)] + kids[s + 1..]
  }

  /** mdb_page_split of a branch, with a new child at index i. */
  function SplitBranch(env: Env, pg: Pgno, kids: seq<Kid>, i: nat, sep: Key, sub: Tree, p: Pool): (Grown, Pool)
    requires 0 < i <= |kids|
  {
    var kids' := kids[..i] + [Kid(At(sep), sub)] + kids[i..];
    if |kids'| < 3 then (Full, p)
    else
      var s := SplitIndex(KidSizes(env, kids'), i, env.PMax());
      var (rp, p1) := NewBranch(p);
      if 0 < s < |kids'| && kids'[s].sep.At? then
        var left, right := Branch(pg, kids'[..s]), Branch(rp, RightHalf(kids', s));
        if Used(env, left) <= env.PMax() && Used(env, right) <= env.PMax() then
          (Split(left, kids'[s].sep.key, right), p1)
        else (Full, p1)
      else (Full, p1)
  }

  /** Link a new right sibling at index i of a branch, splitting the branch if there is no room. */
  function AddKid(env: Env, pg: Pgno, kids: seq<Kid>, i: nat, sep: Key, sub: Tree, p: Pool): (Grown, Pool)
    requires 0 < i <= |kids|
  {
    if SizeLeft(env, Branch(pg, kids)) >= BranchSize(env, At(sep)) then
      (Same(Branch(pg, kids[..i] + [Kid(At(sep), sub)] + kids[i..])), p)
    else SplitBranch(env, pg, kids, i, sep, sub, p)
  }

  predicate Searchable(t: Tree)
    decreases t
  {
    match t
    case Leaf(_, _) => true
    case Branch(_, kids) =>
      |kids| > 0 && (forall j :: 0 < j < |kids| ==> kids[j].sep.At?)
      && forall j :: 0 <= j < |kids| ==> var kid := kids[j]; assert kid.sub < kid; Searchable(kid.sub)
  }

  lemma {:induction false} SortedSearchable(t: Tree)
    requires Sorted(t)
    ensures Searchable(t)
    decreases t
  {
    if t.Branch? {
      forall j | 0 <= j < |t.kids| ensures Searchable(t.kids[j].sub) {
        var kid := t.kids[j];
        assert kid.sub < kid;
        SortedSearchable(kid.sub);
      }
    }
  }

  /** Store a binding in the tree below a page. */
  function Put(env: Env, t: Tree, k: Key, v: Val, p: Pool): (Grown, Pool)
    requires env.psize > 0 && Searchable(t)
    decreases t
  {
    match t
    case Leaf(pg, items) => PutLeaf(env, pg, items, k, v, p)
    case Branch(pg, kids) =>
      var i := ChildAt(kids, k);
      var kid := kids[i];
      assert kid.sub < kid;
      var (g, p1) := Put(env, kid.sub, k, v, p);
      match g
      case Same(t') => (Same(Branch(pg, kids[i := Kid(kid.sep, t')])), p1)
      case Split(left, sep, right) =>
        AddKid(env, pg, kids[i := Kid(kid.sep, left)], i + 1, sep, right, p1)
      case Full => (Full, p1)
  }
}
