/**
 A table of a write transaction: the MDB_db record, its tree, and the operations mdb_get,
 mdb_put and mdb_del on it, which descend from the root and may replace it.
 */
module BTreeTable {
  import opened BTree
  import opened BTreeSearch
  import opened PagePool
  import opened BTreePut
  import opened BTreePutProof
  import opened BTreePages
  import opened BTreeDel
  import opened BTreeDelProof
  import opened BTreeDelPages
  import opened BTreeFull

  // ---- mdb_cursor_touch ----------------------------------------------------------------------

  /** Make every page on the way to a key writable. */
  function TouchPath(t: Tree, k: Key, p: Pool): (Tree, Pool)
    requires Searchable(t)
    decreases t
  {
    var (pg, p1) := TouchPage(t.pg, p);
    match t
    case Leaf(_, items) => (Leaf(pg, items), p1)
    case Branch(_, kids) =>
      var i := ChildAt(kids, k);
      var kid := kids[i];
      assert kid.sub < kid;
      var (sub, p2) := TouchPath(kid.sub, k, p1);
      (Branch(pg, kids[i := Kid(kid.sep, sub)]), p2)
  }

  /** Copying pages changes neither what the tree holds nor its order. */
  lemma {:induction false} TouchPathKeeps(env: Env, t: Tree, k: Key, p: Pool, d: nat)
    requires GoodTree(env, t, d) && Searchable(t)
    ensures var t' := TouchPath(t, k, p).0; GoodTree(env, t', d) && Flat(t') == Flat(t)
    decreases t
  {
    if t.Branch? {
      hide KidsOk, GoodTree, FlatKids, Sum, KidSizes, InSlot, TouchPage;
      var i := ChildAt(t.kids, k);
      var kid := t.kids[i];
      assert kid.sub < kid;
      var (pg, p1) := TouchPage(t.pg, p);
      var sub := TouchPath(kid.sub, k, p1).0;
      GoodKids(env, t, d);
      TouchPathKeeps(env, kid.sub, k, p1, d - 1);
      OwnSlot(env, t.kids, i, d - 1);
      ReplacedKids(env, t.kids, i, sub, d - 1);
      SameSizes(env, t.kids, i, sub);
      BranchGood(env, pg, t.kids[i := Kid(kid.sep, sub)], d - 1);
      ReplacedFlat(t.kids, i, sub);
      FlatSplit(t.kids, i);
    }
  }

  /** Every page on the way to a key is dirty. */
  predicate PathDirty(t: Tree, k: Key, dirty: set<Pgno>)
    requires Searchable(t)
    decreases t
  {
    && t.pg in dirty
    && match t
       case Leaf(_, _) => true
       case Branch(_, kids) =>
         var kid := kids[ChildAt(kids, k)];
         assert kid.sub < kid;
         PathDirty(kid.sub, k, dirty)
  }

  /** A path that is dirty already is not copied again. */
  lemma {:induction false} DirtyPathStays(t: Tree, k: Key, p: Pool)
    requires Searchable(t) && PathDirty(t, k, p.dirty)
    ensures TouchPath(t, k, p) == (t, p)
    decreases t
  {
    if t.Branch? {
      var i := ChildAt(t.kids, k);
      var kid := t.kids[i];
      assert kid.sub < kid;
      DirtyPathStays(kid.sub, k, p);
      assert t.kids[i := Kid(kid.sep, kid.sub)] == t.kids;
    }
  }

  lemma {:induction false} TouchPathConserves(t: Tree, k: Key, p: Pool)
    requires Searchable(t)
    ensures var (t', p') := TouchPath(t, k, p); Conserves(Shape(t), p, Shape(t'), p')
    decreases t
  {
    hide Conserves, Shape, Plus, TouchPage;
    var (pg, p1) := TouchPage(t.pg, p);
    TouchConserves(t, p);
    if t.Branch? {
      var i := ChildAt(t.kids, k);
      var kid := t.kids[i];
      assert kid.sub < kid;
      var (sub, p2) := TouchPath(kid.sub, k, p1);
      TouchPathConserves(kid.sub, k, p1);
      BranchReplaces(pg, t.kids, i, sub);
      var rest := Shape(Branch(pg, t.kids[..i] + t.kids[i + 1..]));
      ConservesBeside(Shape(kid.sub), p1, Shape(sub), p2, rest);
      ConservesTwice(Shape(t), p, Plus(Shape(kid.sub), rest), p1, Plus(Shape(sub), rest), p2);
    }
  }

  // ---- The root ------------------------------------------------------------------------------

  datatype Root = NoRoot | Root(tree: Tree)

  function RootUse(r: Root): Use { if r.NoRoot? then Nothing else Shape(r.tree) }

  function RootFlat(r: Root): seq<Entry> { if r.NoRoot? then [] else Flat(r.tree) }

  /** A tree of the given depth in good order; P_INVALID is the root of the empty table, of depth 0. */
  ghost predicate GoodRoot(env: Env, r: Root, d: nat) {
    if r.NoRoot? then d == 0 else GoodTree(env, r.tree, d)
  }

  /** The new root above the halves of a root that was split. */
  function NewRoot(left: Tree, sep: Key, right: Tree, p: Pool): (Tree, Pool) {
    var (pg, p') := NewBranch(p);
    (Branch(pg, [Kid(Empty, left), Kid(At(sep), right)]), p')
  }

  lemma {:induction false} NewRootGood(env: Env, left: Tree, sep: Key, right: Tree, es: seq<Entry>, p: Pool, d: nat)
    requires env.Ok() && d > 0 && Stores(env, Split(left, sep, right), es, d)
    ensures var t := NewRoot(left, sep, right, p).0; GoodTree(env, t, d + 1) && Flat(t) == es
  {
    hide GoodTree, Below, AtLeast, Sum, KidSizes, FlatKids, NewBranch;
    var (pg, _) := NewBranch(p);
    var kids := [Kid(Empty, left), Kid(At(sep), right)];
    FirstSize(env, kids);
    FirstSize(env, kids[1..]);
    NoSizes(env);
    assert kids[1..] == [kids[1]] && kids[1..][1..] == [];
    KidSizeBound(env, kids[0]);
    KidSizeBound(env, kids[1]);
    BranchGood(env, pg, kids, d);
    FlatSplit(kids, 0);
    FlatEmpty();
    FlatOne(kids[1]);
    assert [] + Flat(left) + Flat(right) == Flat(left) + Flat(right);
  }

  lemma NoSizes(env: Env)
    ensures Sum(KidSizes(env, [])) == 0
  {
  }

  lemma {:induction false} NewRootUse(left: Tree, sep: Key, right: Tree, p: Pool)
    ensures var (t, p') := NewRoot(left, sep, right, p); Conserves(Plus(Shape(left), Shape(right)), p, Shape(t), p')
  {
    hide Conserves, Shape, Plus, KidsUse, NewBranch;
    var (pg, p') := NewBranch(p);
    var l, r := Kid(Empty, left), Kid(At(sep), right);
    NewPageConserves(p);
    Grows(p, BranchUse(pg), p', Plus(Shape(left), Shape(right)));
    PairIn(pg, [], 0, l, r);
    assert [][..0] + [l, r] + [][0..] == [l, r];
    EmptyBranch(pg);
    PlusLaws(BranchUse(pg), Plus(Shape(left), Shape(right)), Nothing);
  }

  lemma {:induction false} EmptyBranch(pg: Pgno)
    ensures Shape(Branch(pg, [])) == BranchUse(pg)
  {
    hide Plus, BranchUse;
    assert KidsUse([]) == Nothing;
    PlusLaws(BranchUse(pg), Nothing, Nothing);
  }

  /** mdb_rebalance of the root: an empty leaf goes, a branch with one child gives way to it. */
  function TrimRoot(env: Env, t: Tree, d: nat, p: Pool): (Root, nat, Pool)
    requires env.PMax() > 0
  {
    if t.Leaf? && |t.items| == 0 then (NoRoot, 0, Free(p, t.pg).(leaf := 0))
    else if t.Branch? && |t.kids| == 1 && d > 0 then
      (Root(t.kids[0].sub), d - 1, Free(p, t.pg).(branch := p.branch - 1))
    else (Root(t), d, p)
  }

  lemma {:induction false} TrimRootGood(env: Env, t: Tree, d: nat, p: Pool)
    requires env.Ok() && Weak(env, t, d)
    ensures var (r, d', _) := TrimRoot(env, t, d, p); GoodRoot(env, r, d') && RootFlat(r) == Flat(t)
  {
    if NumKeys(t) >= MinKeys(t) {
      WeakIsGood(env, t, d);
    } else if t.Branch? {
      FlatOne(t.kids[0]);
      assert t.kids == [t.kids[0]];
    }
  }

  lemma {:induction false} FreedConserves(p: Pool, pg: Pgno)
    ensures Conserves(LeafUse(pg), p, Nothing, Free(p, pg).(leaf := p.leaf - 1))
    ensures Conserves(BranchUse(pg), p, Nothing, Free(p, pg).(branch := p.branch - 1))
  {
    assert Run(p.next, 0) == [];
    FreeKeeps(p, pg);
  }

  /** Trimming conserves pages; for an empty table the leaf count is set to 0 outright, which is right for a lone leaf. */
  lemma {:induction false} TrimRootConserves(env: Env, t: Tree, d: nat, p: Pool)
    requires env.PMax() > 0 && (t.Leaf? ==> p.leaf == 1)
    ensures var (r, _, p') := TrimRoot(env, t, d, p); Conserves(Shape(t), p, RootUse(r), p')
  {
    hide Conserves, Plus, Free;
    FreedConserves(p, t.pg);
    ConservesNothing(Shape(t), p);
    if t.Leaf? && |t.items| == 0 {
      PlusLaws(LeafUse(t.pg), Nothing, Nothing);
    } else if t.Branch? && |t.kids| == 1 && d > 0 {
      var sub := t.kids[0].sub;
      assert t.kids == [t.kids[0]] && [t.kids[0]][1..] == [];
      assert KidsUse(t.kids) == Plus(Shape(sub), Nothing);
      PlusLaws(Shape(sub), Nothing, Nothing);
      Shrinks(p, BranchUse(t.pg), Free(p, t.pg).(branch := p.branch - 1), Shape(sub));
    }
  }

  // ---- Storing and deleting at the root ------------------------------------------------------

  ghost predicate Counted(r: Root, p: Pool) {
    (p.branch, p.leaf, p.overflow) == (RootUse(r).branch, RootUse(r).leaf, RootUse(r).overflow)
  }

  lemma {:induction false} StillCounted(r: Root, p: Pool, r': Root, p': Pool)
    requires Counted(r, p) && Conserves(RootUse(r), p, RootUse(r'), p')
    ensures Counted(r', p')
  {
  }

  lemma {:induction false} UpsertLength(es: seq<Entry>, k: Key, v: Val)
    requires Ascending(es)
    ensures |Upsert(es, k, v)| == |es| + if Lookup(es, k) == Missing then 1 else 0
  {
    if es != [] {
      if es[0].key < k {
        UpsertLength(es[1..], k, v);
      } else if es[0].key > k {
        assert forall j :: 0 <= j < |es| ==> es[0].key <= es[j].key;
        LookupOutside(es, k);
      }
    }
  }

  /** Store into the tree below the root, which may be split. */
  function RootPut(env: Env, t: Tree, d: nat, k: Key, v: Val, p: Pool): (Root, nat, Pool)
    requires env.psize > 0 && Searchable(t)
  {
    var (g, p1) := Put(env, t, k, v, p);
    match g
    case Same(t') => (Root(t'), d, p1)
    case Split(left, sep, right) =>
      var (t', p2) := NewRoot(left, sep, right, p1);
      (Root(t'), d + 1, p2)
    case Full => (NoRoot, 0, p1)
  }

  lemma {:induction false} RootPutCorrect(env: Env, t: Tree, d: nat, k: Key, v: Val, p: Pool)
    requires env.Ok() && Searchable(t) && (GoodTree(env, t, d) || (d == 1 && t.Leaf? && t.items == []))
    ensures var (r, d', p') := RootPut(env, t, d, k, v, p);
            r.Root? ==>
              (GoodRoot(env, r, d') && RootFlat(r) == Upsert(Flat(t), k, v) && Conserves(Shape(t), p, RootUse(r), p'))
    ensures RootPut(env, t, d, k, v, p).0.NoRoot? <==> PutRefuses(env, t, k, v, p)
  {
    hide Conserves, GoodTree, Upsert, Shape, NewRoot, FlatKids, PutLeaf, PutVerdict;
    var (g, p1) := Put(env, t, k, v, p);
    if GoodTree(env, t, d) {
      PutCorrect(env, t, k, v, p, d);
      PutIsFullExactly(env, t, k, v, p, d);
      DepthPositive(env, t, d);
    } else {
      EmptyItemsOk(env);
      PutLeafStores(env, t.pg, [], k, v, p);
      PutLeafAgrees(env, t.pg, [], k, v, p);
    }
    PutConserves(env, t, k, v, p);
    if g.Split? {
      var (t', p2) := NewRoot(g.left, g.sep, g.right, p1);
      NewRootGood(env, g.left, g.sep, g.right, Upsert(Flat(t), k, v), p1, d);
      NewRootUse(g.left, g.sep, g.right, p1);
      ConservesTwice(Shape(t), p, GrownUse(g), p1, Shape(t'), p2);
    }
  }

  lemma DepthPositive(env: Env, t: Tree, d: nat)
    requires GoodTree(env, t, d)
    ensures d > 0
  {
  }

  lemma EmptyItemsOk(env: Env)
    requires env.Ok()
    ensures ItemsOk(env, [])
  {
  }

  /** Delete from the tree below the root, which may vanish, give way to its only child, or be split. */
  function RootDel(env: Env, t: Tree, d: nat, k: Key, p: Pool): (bool, Root, nat, Pool)
    requires env.PMax() > 0 && Searchable(t)
  {
    match Del(env, t, k, p)
    case Shrunk(t', lost, p1) =>
      if lost then
        var (r, d', p2) := TrimRoot(env, t', d, p1);
        (true, r, d', p2)
      else (true, Root(t'), d, p1)
    case Swollen(left, sep, right, p1) =>
      var (t', p2) := NewRoot(left, sep, right, p1);
      (true, Root(t'), d + 1, p2)
    case NoSpace => (false, NoRoot, 0, p)
    case Broken => (false, NoRoot, 0, p)
  }

  lemma {:induction false} RootDelCorrect(env: Env, t: Tree, d: nat, k: Key, p: Pool)
    requires env.Ok() && Searchable(t) && GoodTree(env, t, d) && Lookup(Flat(t), k) != Missing
    requires Counted(Root(t), p)
    ensures var (ok, r, d', p') := RootDel(env, t, d, k, p);
            ok ==> GoodRoot(env, r, d') && RootFlat(r) == Remove(Flat(t), k) && Conserves(Shape(t), p, RootUse(r), p')
    ensures !RootDel(env, t, d, k, p).0 <==> DelRefuses(env, t, k)
  {
    hide Conserves, GoodTree, Remove, NewRoot, TrimRoot, FlatKids, ItemsUse, KidsUse, Shape, Plus, Counted, Lookup, Del, DelFate;
    DelCorrect(env, t, k, p, d);
    DelIsFullExactly(env, t, k, p, d);
    DelConserves(env, t, k, p);
    DepthPositive(env, t, d);
    match Del(env, t, k, p)
    case Shrunk(t', lost, p1) =>
      if lost {
        TrimRootGood(env, t', d, p1);
        if t'.Leaf? { LoneLeaf(Root(t), p, t', p1); }
        TrimRootConserves(env, t', d, p1);
        var (r, d', p2) := TrimRoot(env, t', d, p1);
        ConservesTwice(Shape(t), p, Shape(t'), p1, RootUse(r), p2);
      }
    case Swollen(left, sep, right, p1) =>
      NewRootGood(env, left, sep, right, Remove(Flat(t), k), p1, d);
      NewRootUse(left, sep, right, p1);
      var (t', p2) := NewRoot(left, sep, right, p1);
      ConservesTwice(Shape(t), p, Plus(Shape(left), Shape(right)), p1, Shape(t'), p2);
    case _ =>
  }

  lemma {:induction false} LoneLeaf(r: Root, p: Pool, t: Tree, p': Pool)
    requires Counted(r, p) && Conserves(RootUse(r), p, Shape(t), p') && t.Leaf?
    ensures p'.leaf == 1
  {
    StillCounted(r, p, Root(t), p');
    ItemsHaveNoLeaves(t.items);
  }

  lemma {:induction false} ItemsHaveNoLeaves(items: seq<Item>)
    ensures ItemsUse(items).leaf == 0
  {
    if items != [] { ItemsHaveNoLeaves(items[1..]); }
  }

  lemma {:induction false} TouchPathSearchable(t: Tree, k: Key, p: Pool)
    requires Searchable(t)
    ensures Searchable(TouchPath(t, k, p).0)
    decreases t
  {
    if t.Branch? {
      var i := ChildAt(t.kids, k);
      var kid := t.kids[i];
      assert kid.sub < kid;
      TouchPathSearchable(kid.sub, k, TouchPage(t.pg, p).1);
    }
  }

  /** Overfull: MDB_PAGE_FULL, which marks the transaction as failed (MDB_TXN_ERROR). */
  datatype Status = Success | NotFound | BadTxn | BadValSize | Overfull

  const MAXDATASIZE := 0xffffffff

  // ---- Tables --------------------------------------------------------------------------------

  /** A page refuses what a put would give it; making the path writable comes first and may dirty pages. A new root leaf takes any node. */
  predicate PutRefused(env: Env, r: Root, k: Key, v: Val, p: Pool)
    requires env.psize > 0
  {
    r.Root? && Searchable(r.tree) && PutRefuses(env, r.tree, k, v, TouchPath(r.tree, k, p).1)
  }

  predicate DelRefused(env: Env, r: Root, k: Key)
    requires env.PMax() > 0
  {
    r.Root? && Searchable(r.tree) && DelRefuses(env, r.tree, k)
  }

  predicate FewInAll(r: Root) { r.Root? ==> FewNodes(r.tree) }

  lemma SameChild(env: Env, kids: seq<Kid>, i: nat, sub: Tree, k: Key)
    requires |kids| > 0 && (forall j :: 0 < j < |kids| ==> kids[j].sep.At?) && i == ChildAt(kids, k)
    ensures var kids' := kids[i := Kid(kids[i].sep, sub)];
            && (forall j :: 0 < j < |kids'| ==> kids'[j].sep.At?) && ChildAt(kids', k) == i
            && KidSizes(env, kids') == KidSizes(env, kids) && KidKeys(kids') == KidKeys(kids)
  {
    hide ChildAt;
    SamePage(env, kids, i, sub);
    ChildAtIs(kids[i := Kid(kids[i].sep, sub)], k, i);
  }

  /** Making the path writable changes nothing the verdicts look at. */
  lemma {:induction false} TouchPathVerdict(env: Env, t: Tree, k: Key, v: Val, p: Pool, dirty: set<Pgno>)
    requires env.psize > 0 && Searchable(t) && Searchable(TouchPath(t, k, p).0)
    ensures PutVerdict(env, TouchPath(t, k, p).0, k, v, dirty) == PutVerdict(env, t, k, v, dirty)
    decreases t
  {
    hide ChildAt, KidSizes, KidKeys, Position, ItemVerdict, InPlace, LeafSize, BranchVerdict, KeySize, Sum, TouchPage, NodeKeys;
    if t.Branch? {
      var i := ChildAt(t.kids, k);
      var kid := t.kids[i];
      assert kid.sub < kid;
      var (pg, p1) := TouchPage(t.pg, p);
      var sub := TouchPath(kid.sub, k, p1).0;
      SameChild(env, t.kids, i, sub, k);
      TouchPathSearchable(kid.sub, k, p1);
      TouchPathVerdict(env, kid.sub, k, v, p1, dirty);
    }
  }

  lemma {:induction false} TouchPathFate(env: Env, t: Tree, k: Key, p: Pool)
    requires env.PMax() > 0 && Searchable(t) && Searchable(TouchPath(t, k, p).0)
    ensures DelFate(env, TouchPath(t, k, p).0, k) == DelFate(env, t, k)
    decreases t
  {
    hide ChildAt, KidSizes, KidKeys, Position, BranchVerdict, KeySize, KeyFits, Sum, TouchPage, CanSpare, SparedKey, TooLittle, ItemSize,
      NodeKeys;
    if t.Branch? {
      var i := ChildAt(t.kids, k);
      var kid := t.kids[i];
      assert kid.sub < kid;
      var (pg, p1) := TouchPage(t.pg, p);
      var sub := TouchPath(kid.sub, k, p1).0;
      SameChild(env, t.kids, i, sub, k);
      TouchPathSearchable(kid.sub, k, p1);
      TouchPathFate(env, kid.sub, k, p1);
      assert sub.Branch? == kid.sub.Branch?;
      if |t.kids| >= 2 { SameFate(env, t.kids, i, sub); }
    }
  }

  lemma SameFate(env: Env, kids: seq<Kid>, i: nat, sub: Tree)
    requires env.PMax() > 0 && i < |kids| && |kids| >= 2
    ensures AboveFate(env, kids[i := Kid(kids[i].sep, sub)], i) == AboveFate(env, kids, i)
  {
    hide KidSizes, KidKeys, BranchVerdict, KeySize, Sum, CanSpare, SparedKey, KeyFits;
    SamePage(env, kids, i, sub);
    var m := if i == 0 then 1 else i;
    var neighbour := kids[if i == 0 then 1 else i - 1].sub;
    KeyFitsSame(env, 0, kids, i, sub, m, SparedKey(neighbour, i == 0));
  }

  /** A table whose pages all have fewer than twenty nodes refuses nothing. */
  lemma {:induction false} FewRefuseNothing(env: Env, r: Root, k: Key, v: Val, p: Pool)
    requires env.Ok() && FewInAll(r)
    ensures !PutRefused(env, r, k, v, p) && !DelRefused(env, r, k)
  {
    hide FewNodes, TouchPath, PutRefuses, DelRefuses;
    if r.Root? && Searchable(r.tree) {
      FewNodesTakePut(env, r.tree, k, v, TouchPath(r.tree, k, p).1);
      FewNodesTakeDel(env, r.tree, k);
    }
  }

  class Table {
    const env: Env
    var root: Root
    var depth: nat
    var entries: nat
    var pool: Pool
    var error: bool

    /** The record of the table agrees with its tree. */
    ghost predicate Valid()
      reads this
    {
      env.Ok() && GoodRoot(env, root, depth) && entries == |Contents()| && Counted(root, pool)
    }

    ghost function Contents(): seq<Entry>
      reads this
    {
      RootFlat(root)
    }

    constructor (env: Env, pool: Pool)
      requires env.Ok() && (pool.branch, pool.leaf, pool.overflow) == (0, 0, 0)
      ensures Valid() && Contents() == [] && this.env == env && this.pool == pool && !error
    {
      this.env, this.pool := env, pool;
      root, depth, entries, error := NoRoot, 0, 0, false;
    }

    /** mdb_get */
    method Get(k: Key) returns (r: Found)
      requires Valid()
      ensures r == Lookup(Contents(), k)
    {
      if root.NoRoot? { return Missing; }
      r := BTreeSearch.Get(root.tree, k);
    }

    /** A root leaf for an empty table, or a writable path to the key. */
    method Prepare(k: Key) returns (t: Tree, d: nat, p: Pool)
      requires Valid()
      ensures Searchable(t) && Flat(t) == Contents() && Conserves(RootUse(root), pool, Shape(t), p)
      ensures if root.NoRoot? then d == 1 && t.Leaf? && t.items == [] else d == depth && GoodTree(env, t, d)
      ensures root.Root? ==> Searchable(root.tree) && (t, p) == TouchPath(root.tree, k, pool)
    {
      hide Conserves, GoodTree, Shape, Counted, NewLeaf, TouchPath, FlatKids;
      if root.NoRoot? {
        var (pg, p1) := NewLeaf(pool);
        t, d, p := Leaf(pg, []), depth + 1, p1;
        NewPageConserves(pool);
        EmptyLeaf(pg);
      } else {
        GoodSearchable(env, root.tree, depth);
        var (t1, p1) := TouchPath(root.tree, k, pool);
        t, d, p := t1, depth, p1;
        TouchPathKeeps(env, root.tree, k, pool, depth);
        TouchPathConserves(root.tree, k, pool);
        TouchPathSearchable(root.tree, k, pool);
      }
    }

    /** mdb_put: afterwards the table holds its old contents with one binding added or replaced. */
    method Put(k: Key, v: Val) returns (rc: Status)
      requires Valid()
      modifies this
      ensures rc != NotFound
      ensures rc == BadTxn <==> old(error)
      ensures rc == BadValSize <==> !old(error) && v.size > MAXDATASIZE
      ensures rc == BadTxn || rc == BadValSize ==> unchanged(this)
      ensures rc == Overfull <==> !old(error) && v.size <= MAXDATASIZE && old(PutRefused(env, root, k, v, pool))
      ensures rc == Overfull ==> error && old(!FewInAll(root))
      ensures rc == Success ==> !error && Valid() && Contents() == Upsert(old(Contents()), k, v)
      ensures rc == Success ==> Conserves(old(RootUse(root)), old(pool), RootUse(root), pool)
    {
      hide Conserves, GoodTree, Upsert, Shape, Counted, Lookup, RootPut, FlatKids, Searchable, PutVerdict, TouchPath, FewInAll;
      if error { return BadTxn; }
      if v.size > MAXDATASIZE { return BadValSize; }
      ghost var es, use, before := Contents(), RootUse(root), pool;
      var found := Get(k);
      var t, d, p := Prepare(k);
      var (r, d', p') := RootPut(env, t, d, k, v, p);
      RootPutCorrect(env, t, d, k, v, p);
      if root.NoRoot? { NewLeafTakes(env, t.pg, k, v, p); } else { TouchPathVerdict(env, root.tree, k, v, pool, p.dirty); }
      if r.NoRoot? {
        if FewInAll(root) { FewRefuseNothing(env, root, k, v, pool); }
        error := true;
        return Overfull;
      }
      ConservesTwice(use, before, Shape(t), p, RootUse(r), p');
      StillCounted(root, before, r, p');
      ContentsAscend(env, root, depth);
      UpsertLength(es, k, v);
      root, depth, pool := r, d', p';
      if found == Missing { entries := entries + 1; }
      return Success;
    }

    /** mdb_del: afterwards the table holds its old contents without the binding of the key. */
    method Delete(k: Key) returns (rc: Status)
      requires Valid()
      modifies this
      ensures rc != BadValSize
      ensures rc == BadTxn <==> old(error)
      ensures rc == NotFound <==> !old(error) && Lookup(old(Contents()), k) == Missing
      ensures rc == BadTxn || rc == NotFound ==> unchanged(this)
      ensures rc == Overfull <==> !old(error) && Lookup(old(Contents()), k) != Missing && old(DelRefused(env, root, k))
      ensures rc == Overfull ==> error && old(!FewInAll(root))
      ensures rc == Success ==> !error && Valid() && Contents() == Remove(old(Contents()), k)
      ensures rc == Success ==> entries + 1 == old(entries)
      ensures rc == Success ==> Conserves(old(RootUse(root)), old(pool), RootUse(root), pool)
    {
      hide Conserves, GoodTree, Remove, Shape, Counted, RootDel, FlatKids, Searchable, DelFate, TouchPath, FewInAll;
      if error { return BadTxn; }
      var found := Get(k);
      if found == Missing { return NotFound; }
      ghost var es, use, before := Contents(), RootUse(root), pool;
      var t, d, p := Prepare(k);
      StillCounted(root, before, Root(t), p);
      var (ok, r, d', p') := RootDel(env, t, depth, k, p);
      RootDelCorrect(env, t, depth, k, p);
      TouchPathFate(env, root.tree, k, pool);
      if !ok {
        if FewInAll(root) { FewRefuseNothing(env, root, k, Val(0, 0), pool); }
        error := true;
        return Overfull;
      }
      ConservesTwice(use, before, Shape(t), p, RootUse(r), p');
      StillCounted(root, before, r, p');
      RemoveLength(es, k);
      root, depth, pool, entries := r, d', p', entries - 1;
      return Success;
    }
  }

  lemma {:induction false} EmptyLeaf(pg: Pgno)
    ensures Shape(Leaf(pg, [])) == LeafUse(pg) && Flat(Leaf(pg, [])) == []
  {
    hide Plus, LeafUse;
    assert ItemsUse([]) == Nothing;
    PlusLaws(LeafUse(pg), Nothing, Nothing);
  }

  lemma GoodSearchable(env: Env, t: Tree, d: nat)
    requires GoodTree(env, t, d)
    ensures Searchable(t)
  {
    SortedSearchable(t);
  }

  lemma ContentsAscend(env: Env, r: Root, d: nat)
    requires GoodRoot(env, r, d)
    ensures Ascending(RootFlat(r))
  {
    if r.Root? { FlatAscending(r.tree); }
  }
}
