/**
 Exactly when mdb_put or mdb_del reports MDB_PAGE_FULL, read off the pages before the call: which
 pages on the way have no room, which key each split passes up, and whether mdb_page_split looks
 at the node sizes there or divides in the middle, where a half may be too large.
 */
module BTreeFull {
  import opened BTree
  import opened BTreeSearch
  import opened PagePool
  import opened SplitPoint
  import opened BTreePut
  import opened BTreePutProof
  import opened BTreeDel
  import opened BTreeDelProof

  // ---- One page ------------------------------------------------------------------------------

  /** What becomes of a page that must take a node: it has room, is split at a key, or cannot be. */
  datatype Verdict = Fits | Splits(sep: Key) | Refused

  /** The sizes, or the keys, of the nodes of a page with one more at index i. */
  function Grow<T>(s: seq<T>, i: nat, x: T): (r: seq<T>)
    requires i <= |s|
    ensures |r| == |s| + 1
  {
    s[..i] + [x] + s[i..]
  }

  function At0<T>(s: seq<T>, i: nat, none: T): T { if i < |s| then s[i] else none }

  /** The index of the first node that goes to the right half. */
  function SplitAt(ns: seq<int>, i: nat, pmax: int): nat
    requires i < |ns|
  {
    if |ns| >= 3 then SplitIndex(ns, i, pmax) else 0
  }

  /** Splitting a leaf: sizes and keys of its nodes with the new one at index i. */
  function LeafVerdict(ns: seq<int>, keys: seq<Key>, i: nat, pmax: int): Verdict
    requires i < |ns|
  {
    if !Scans(ns, i, pmax) && !HalvesFit(ns, Midpoint(ns), pmax) then Refused else Splits(At0(keys, SplitAt(ns, i, pmax), 0))
  }

  /** The space of a branch node with the empty key, and with a given one. */
  const EMPTY_KEY_SIZE := 10

  function KeySize(env: Env, k: Key): int { Even(NODE_HEADER + env.ksize(k)) + SLOT }

  /** The two parts of a branch around index m fit; the first key of the right one is emptied. */
  predicate BranchHalvesFit(ns: seq<int>, m: nat, pmax: int) {
    m < |ns| && Sum(ns[..m]) <= pmax && Sum(ns[m..]) - ns[m] + EMPTY_KEY_SIZE <= pmax
  }

  /** Splitting a branch. */
  function BranchVerdict(ns: seq<int>, keys: seq<Key>, i: nat, pmax: int): Verdict
    requires i < |ns|
  {
    if !Scans(ns, i, pmax) && !BranchHalvesFit(ns, |ns| / 2, pmax) then Refused else Splits(At0(keys, SplitAt(ns, i, pmax), 0))
  }

  function KidKeys(kids: seq<Kid>): (ks: seq<Key>)
    ensures |ks| == |kids|
  {
    NodeKeys(Branch(0, kids))
  }

  /** Adding a node to a leaf. */
  function ItemVerdict(env: Env, items: seq<Item>, i: nat, k: Key, size: int): Verdict
    requires i <= |items|
  {
    var ns := ItemSizes(env, items);
    if Sum(ns) + size <= env.PMax() then Fits else LeafVerdict(Grow(ns, i, size), Grow(NodeKeys(Leaf(0, items)), i, k), i, env.PMax())
  }

  /** Adding a child to a branch. */
  function KidVerdict(env: Env, kids: seq<Kid>, i: nat, sep: Key): Verdict
    requires i <= |kids|
  {
    var ns := KidSizes(env, kids);
    if Sum(ns) + KeySize(env, sep) <= env.PMax() then Fits
    else BranchVerdict(Grow(ns, i, KeySize(env, sep)), Grow(KidKeys(kids), i, sep), i, env.PMax())
  }

  // ---- A put ---------------------------------------------------------------------------------

  /** The new value takes the place of the old one: same size, or an overflow run of this transaction that is large enough. */
  predicate InPlace(env: Env, it: Item, v: Val, dirty: set<Pgno>)
    requires env.psize > 0
  {
    if it.store.Overflow? then it.store.n >= OverflowPages(env, v.size) && it.store.pg in dirty else it.val.size == v.size
  }

  /** What becomes of the page at the top of a tree when a binding is stored below it. */
  function PutVerdict(env: Env, t: Tree, k: Key, v: Val, dirty: set<Pgno>): Verdict
    requires env.psize > 0 && Searchable(t)
    decreases t
  {
    match t
    case Leaf(_, items) =>
      var i := Position(items, k);
      if !(i < |items| && items[i].key == k) then ItemVerdict(env, items, i, k, LeafSize(env, k, v))
      else if InPlace(env, items[i], v, dirty) then Fits
      else ItemVerdict(env, items[..i] + items[i + 1..], i, k, LeafSize(env, k, v))
    case Branch(_, kids) =>
      var i := ChildAt(kids, k);
      var kid := kids[i];
      assert kid.sub < kid;
      match PutVerdict(env, kid.sub, k, v, dirty)
      case Fits => Fits
      case Splits(sep) => KidVerdict(env, kids, i + 1, sep)
      case Refused => Refused
  }

  /** The put would end in MDB_PAGE_FULL. */
  predicate PutRefuses(env: Env, t: Tree, k: Key, v: Val, p: Pool)
    requires env.psize > 0 && Searchable(t)
  {
    PutVerdict(env, t, k, v, p.dirty) == Refused
  }

  ghost predicate Agrees(g: Grown, w: Verdict) {
    match g
    case Same(_) => w == Fits
    case Split(_, sep, _) => w == Splits(sep)
    case Full => w == Refused
  }

  lemma GrowSizes(env: Env, items: seq<Item>, i: nat, it: Item)
    requires i <= |items|
    ensures var row := items[..i] + [it] + items[i..];
            && ItemSizes(env, row) == Grow(ItemSizes(env, items), i, ItemSize(env, it))
            && NodeKeys(Leaf(0, row)) == Grow(NodeKeys(Leaf(0, items)), i, it.key)
  {
    hide ItemSize;
    var row := items[..i] + [it] + items[i..];
    assert forall j :: 0 <= j < |row| ==> row[j] == if j < i then items[j] else if j == i then it else items[j - 1];
    assert ItemSizes(env, row) == Grow(ItemSizes(env, items), i, ItemSize(env, it));
    hide ItemSizes;
    assert NodeKeys(Leaf(0, row)) == Grow(NodeKeys(Leaf(0, items)), i, it.key);
  }

  lemma GrowKids(env: Env, kids: seq<Kid>, i: nat, sep: Key, sub: Tree)
    requires i <= |kids|
    ensures var row := kids[..i] + [Kid(At(sep), sub)] + kids[i..];
            KidSizes(env, row) == Grow(KidSizes(env, kids), i, KeySize(env, sep)) && KidKeys(row) == Grow(KidKeys(kids), i, sep)
  {
    hide KidSizes, KidKeys, KidSize, KeySize, Grow;
    var kid := Kid(At(sep), sub);
    KeySizeIs(env, sep, sub);
    GrowKidSizes(env, kids, i, kid);
    GrowKidKeys(kids, i, sep, sub);
  }

  lemma GrowKidSizes(env: Env, kids: seq<Kid>, i: nat, kid: Kid)
    requires i <= |kids|
    ensures KidSizes(env, kids[..i] + [kid] + kids[i..]) == Grow(KidSizes(env, kids), i, KidSize(env, kid))
  {
    hide KidSize;
    KidSizesAppend(env, kids[..i] + [kid], kids[i..]);
    KidSizesAppend(env, kids[..i], [kid]);
    assert KidSizes(env, [kid]) == [KidSize(env, kid)];
    assert KidSizes(env, kids[..i]) == KidSizes(env, kids)[..i] && KidSizes(env, kids[i..]) == KidSizes(env, kids)[i..];
  }

  lemma GrowKidKeys(kids: seq<Kid>, i: nat, sep: Key, sub: Tree)
    requires i <= |kids|
    ensures KidKeys(kids[..i] + [Kid(At(sep), sub)] + kids[i..]) == Grow(KidKeys(kids), i, sep)
  {
    var row := kids[..i] + [Kid(At(sep), sub)] + kids[i..];
    forall j | 0 <= j < |row| ensures KidKeys(row)[j] == Grow(KidKeys(kids), i, sep)[j] {
      assert row[j] == if j < i then kids[j] else if j == i then Kid(At(sep), sub) else kids[j - 1];
    }
  }

  lemma {:induction false} AddItemAgrees(env: Env, pg: Pgno, items: seq<Item>, i: nat, k: Key, v: Val, p: Pool)
    requires env.Ok() && ItemsOk(env, items) && i <= |items|
    ensures Agrees(AddItem(env, pg, items, i, k, v, p).0, ItemVerdict(env, items, i, k, LeafSize(env, k, v)))
  {
    hide ItemsOk, Sum, ItemSizes, Scans, HalvesFit, LeafSize, ItemSize, SplitIndex, NodeKeys, Splittable, ItemOk, Grow;
    var it := NewItem(env, k, v, p).0;
    var row := items[..i] + [it] + items[i..];
    LeafIsFullExactly(env, pg, items, i, k, v, p);
    NewItemFits(env, k, v, p);
    GrowSizes(env, items, i, it);
    if SizeLeft(env, Leaf(pg, items)) < LeafSize(env, k, v) {
      LeafSplittable(env, items, i, it);
      EnoughNodes(ItemSizes(env, row), i, env.PMax());
      KeysOfRow(row);
    }
  }

  lemma KeysOfRow(items: seq<Item>)
    ensures forall j :: 0 <= j < |items| ==> NodeKeys(Leaf(0, items))[j] == items[j].key
  {
  }

  lemma {:induction false} PutLeafAgrees(env: Env, pg: Pgno, items: seq<Item>, k: Key, v: Val, p: Pool)
    requires env.Ok() && ItemsOk(env, items)
    ensures Agrees(PutLeaf(env, pg, items, k, v, p).0, PutVerdict(env, Leaf(pg, items), k, v, p.dirty))
  {
    hide AddItem, ItemsOk, Position, ItemVerdict, LeafSize, FreeRun, OverflowPages;
    var i := Position(items, k);
    if i < |items| && items[i].key == k {
      var st := items[i].store;
      RemovedItemOk(env, items, i);
      AddItemAgrees(env, pg, items[..i] + items[i + 1..], i, k, v, if st.Overflow? then FreeRun(p, st.pg, st.n) else p);
    } else {
      AddItemAgrees(env, pg, items, i, k, v, p);
    }
  }

  lemma {:induction false} EmptiedSum(env: Env, row: seq<Kid>, m: nat)
    requires m < |row|
    ensures Sum(KidSizes(env, row[..m])) == Sum(KidSizes(env, row)[..m])
    ensures Sum(KidSizes(env, RightHalf(row, m))) == Sum(KidSizes(env, row)[m..]) - KidSizes(env, row)[m] + EMPTY_KEY_SIZE
  {
    var ns, a := KidSizes(env, row), KidSizes(env, RightHalf(row, m));
    assert KidSizes(env, row[..m]) == ns[..m];
    assert a[0] == EMPTY_KEY_SIZE && a[1..] == ns[m..][1..];
  }

  lemma KidKeysAre(row: seq<Kid>)
    ensures forall j :: 0 <= j < |row| && row[j].sep.At? ==> KidKeys(row)[j] == row[j].sep.key
  {
  }

  /** Splitting a branch for one more child does what the sizes and keys of its nodes say. */
  lemma {:induction false} SplitAgrees(env: Env, pg: Pgno, kids: seq<Kid>, i: nat, sep: Key, sub: Tree, p: Pool, d: nat)
    requires env.Ok() && 0 < i <= |kids| && Sum(KidSizes(env, kids)) <= env.PMax()
    requires Sum(KidSizes(env, kids)) + KidSize(env, Kid(At(sep), sub)) > env.PMax()
    requires KidsOk(env, kids[..i] + [Kid(At(sep), sub)] + kids[i..], d)
    ensures var row := kids[..i] + [Kid(At(sep), sub)] + kids[i..];
            Agrees(SplitBranch(env, pg, kids, i, sep, sub, p).0, BranchVerdict(KidSizes(env, row), KidKeys(row), i, env.PMax()))
  {
    hide KidsOk, Sum, KidSizes, KidSize, Scans, RightHalf, Splittable, SplitIndex, NodeKeys;
    var kid := Kid(At(sep), sub);
    var row := kids[..i] + [kid] + kids[i..];
    BranchIsFullExactly(env, pg, kids, i, sep, sub, p, d);
    BranchSplittable(env, kids, i, kid);
    BranchSplitPoint(KidSizes(env, row), i, env.PMax());
    EmptiedSum(env, row, |row| / 2);
    KidKeysAre(row);
  }

  lemma KeySizeIs(env: Env, sep: Key, sub: Tree)
    ensures KeySize(env, sep) == KidSize(env, Kid(At(sep), sub))
  {
  }

  lemma {:induction false} AddKidAgrees(env: Env, pg: Pgno, kids: seq<Kid>, i: nat, sep: Key, sub: Tree, p: Pool, d: nat)
    requires env.Ok() && 0 < i <= |kids| && Sum(KidSizes(env, kids)) <= env.PMax()
    requires KidsOk(env, kids[..i] + [Kid(At(sep), sub)] + kids[i..], d)
    ensures Agrees(AddKid(env, pg, kids, i, sep, sub, p).0, KidVerdict(env, kids, i, sep))
  {
    hide SplitBranch, KidsOk, Sum, KidSizes, KidSize, KeySize, BranchSize, BranchVerdict, NodeKeys, Grow;
    RoomForKid(env, kids, Kid(At(sep), sub));
    KeySizeIs(env, sep, sub);
    GrowKids(env, kids, i, sep, sub);
    if Sum(KidSizes(env, kids)) + KidSize(env, Kid(At(sep), sub)) > env.PMax() {
      SplitAgrees(env, pg, kids, i, sep, sub, p, d);
    }
  }

  /** Replacing the subtree under a node changes neither sizes nor keys of the page. */
  lemma SamePage(env: Env, kids: seq<Kid>, i: nat, sub: Tree)
    requires i < |kids|
    ensures var kids' := kids[i := Kid(kids[i].sep, sub)]; KidSizes(env, kids') == KidSizes(env, kids) && KidKeys(kids') == KidKeys(kids)
  {
  }

  /** The verdict is right: a put leaves the page, splits it at that key, or reports MDB_PAGE_FULL. */
  lemma {:induction false} PutAgrees(env: Env, t: Tree, k: Key, v: Val, p: Pool, d: nat)
    requires env.Ok() && Searchable(t) && GoodTree(env, t, d)
    ensures Agrees(Put(env, t, k, v, p).0, PutVerdict(env, t, k, v, p.dirty))
    decreases t
  {
    hide GoodTree, KidsOk, ItemsOk, PutLeaf, AddKid, KidVerdict, ItemVerdict, Sum, KidSizes, KidKeys, FlatKids, InPlace;
    match t
    case Leaf(pg, items) =>
      GoodItems(env, t, d);
      PutLeafAgrees(env, pg, items, k, v, p);
    case Branch(pg, kids) =>
      var i := ChildAt(kids, k);
      var kid := kids[i];
      assert kid.sub < kid;
      GoodKids(env, t, d);
      OneKid(env, kids, i, d - 1);
      PutAgrees(env, kid.sub, k, v, p, d - 1);
      var (g, p1) := Put(env, kid.sub, k, v, p);
      if g.Split? {
        PutCorrect(env, kid.sub, k, v, p, d - 1);
        InSlotAfterPut(env, t, k, v, d);
        GrownKids(env, kids, i, g.left, g.sep, g.right, Upsert(Flat(kid.sub), k, v), d - 1);
        AddKidAgrees(env, pg, kids[i := Kid(kid.sep, g.left)], i + 1, g.sep, g.right, p1, d - 1);
        SameVerdict(env, kids, i, g.left, i + 1, g.sep);
      }
  }

  lemma SameVerdict(env: Env, kids: seq<Kid>, i: nat, sub: Tree, j: nat, sep: Key)
    requires i < |kids| && j <= |kids|
    ensures KidVerdict(env, kids[i := Kid(kids[i].sep, sub)], j, sep) == KidVerdict(env, kids, j, sep)
  {
    hide KidSizes, NodeKeys, Sum, KeySize, BranchVerdict, KidKeys;
    SamePage(env, kids, i, sub);
  }

  /** mdb_put reports MDB_PAGE_FULL exactly if the pages on the way say so. */
  lemma {:induction false} PutIsFullExactly(env: Env, t: Tree, k: Key, v: Val, p: Pool, d: nat)
    requires env.Ok() && Searchable(t) && GoodTree(env, t, d)
    ensures Put(env, t, k, v, p).0 == Full <==> PutRefuses(env, t, k, v, p)
  {
    hide GoodTree, PutVerdict;
    PutAgrees(env, t, k, v, p, d);
  }

  /** A new leaf has room for any node. */
  lemma {:induction false} NewLeafTakes(env: Env, pg: Pgno, k: Key, v: Val, p: Pool)
    requires env.Ok()
    ensures !PutRefuses(env, Leaf(pg, []), k, v, p)
  {
    hide LeafSize, LeafVerdict;
    NewItemFits(env, k, v, p);
    ItemSizeBound(env, NewItem(env, k, v, p).0);
    assert ItemSizes(env, []) == [];
  }

  lemma OneKid(env: Env, kids: seq<Kid>, i: nat, d: nat)
    requires KidsOk(env, kids, d) && i < |kids|
    ensures GoodTree(env, kids[i].sub, d)
    ensures forall j :: 0 < j < |kids| ==> kids[j].sep.At?
  {
  }

  lemma {:induction false} InSlotAfterPut(env: Env, t: Tree, k: Key, v: Val, d: nat)
    requires t.Branch? && GoodTree(env, t, d)
    ensures var i := ChildAt(t.kids, k); InSlot(t.kids, i, Upsert(Flat(t.kids[i].sub), k, v))
  {
    UpsertInSlot(t, k, v);
  }

  /** The row of children in which one has been replaced by the two halves it split into. */
  lemma {:induction false} GrownKids(env: Env, kids: seq<Kid>, i: nat, left: Tree, sep: Key, right: Tree, es: seq<Entry>, d: nat)
    requires env.Ok() && KidsOk(env, kids, d) && i < |kids| && Sum(KidSizes(env, kids)) <= env.PMax()
    requires Stores(env, Split(left, sep, right), es, d) && InSlot(kids, i, es)
    ensures var kids1 := kids[i := Kid(kids[i].sep, left)];
            && KidsOk(env, kids1[..i + 1] + [Kid(At(sep), right)] + kids1[i + 1..], d)
            && Sum(KidSizes(env, kids1)) <= env.PMax()
  {
    hide KidsOk, GoodTree, Sum, KidSizes, InSlot, Below, AtLeast;
    SplitKids(env, kids, i, left, sep, right, d);
    SameSizes(env, kids, i, left);
  }

  // ---- A deletion ----------------------------------------------------------------------------

  /**
   What becomes of a page when a binding below it is deleted: it keeps its nodes, it has one less
   and `used` bytes in use, it is split at a key, or it would have to be and cannot.
   */
  datatype Fate = Keeps | Loses(used: int, nodes: nat) | Parts(sep: Key) | Stuck

  function FateOf(w: Verdict): Fate {
    match w case Fits => Keeps case Splits(sep) => Parts(sep) case Refused => Stuck
  }

  /** mdb_rebalance has something to do, by the space in use and the number of nodes. */
  predicate TooLittle(env: Env, used: int, nodes: nat, branch: bool)
    requires env.PMax() > 0
  {
    !(1000 * used / env.PMax() >= FILL_THRESHOLD && nodes >= if branch then 2 else 1)
  }

  /** The key a neighbour passes up when it gives its first, or its last, node away. */
  function SparedKey(t: Tree, first: bool): Key {
    var keys := NodeKeys(t);
    At0(keys, if first then 1 else if |keys| > 0 then |keys| - 1 else 0, 0)
  }

  /** The page above child i, which has too little left. */
  function AboveFate(env: Env, kids: seq<Kid>, i: nat): Fate
    requires env.PMax() > 0 && i < |kids| && |kids| >= 2
  {
    var m := if i == 0 then 1 else i;
    var neighbour := kids[if i == 0 then 1 else i - 1].sub;
    var ns := KidSizes(env, kids);
    if !CanSpare(env, neighbour) then Loses(Sum(ns) - ns[m], |kids| - 1)
    else
      var sep := SparedKey(neighbour, i == 0);
      if KeyFits(env, 0, kids, m, sep) then Keeps
      else FateOf(BranchVerdict(ns[m := KeySize(env, sep)], KidKeys(kids)[m := sep], m, env.PMax()))
  }

  function DelFate(env: Env, t: Tree, k: Key): Fate
    requires env.PMax() > 0 && Searchable(t)
    decreases t
  {
    match t
    case Leaf(_, items) =>
      var i := Position(items, k);
      if i < |items| then Loses(Used(env, t) - ItemSize(env, items[i]), |items| - 1) else Keeps
    case Branch(_, kids) =>
      var i := ChildAt(kids, k);
      var kid := kids[i];
      assert kid.sub < kid;
      match DelFate(env, kid.sub, k)
      case Keeps => Keeps
      case Loses(used, nodes) =>
        if TooLittle(env, used, nodes, kid.sub.Branch?) && |kids| >= 2 then AboveFate(env, kids, i) else Keeps
      case Parts(sep) => FateOf(KidVerdict(env, kids, i + 1, sep))
      case Stuck => Stuck
  }

  /** The deletion would end in MDB_PAGE_FULL. */
  predicate DelRefuses(env: Env, t: Tree, k: Key)
    requires env.PMax() > 0 && Searchable(t)
  {
    DelFate(env, t, k) == Stuck
  }

  ghost predicate Follows(env: Env, r: Shrunk, f: Fate) {
    match r
    case Shrunk(t, lost, _) => f == if lost then Loses(Used(env, t), NumKeys(t)) else Keeps
    case Swollen(_, sep, _, _) => f == Parts(sep)
    case NoSpace => f == Stuck
    case Broken => false
  }

  /** The separator after a move is the neighbour's. */
  lemma {:induction false} DividedKey(env: Env, lpg: Pgno, left: Tree, rpg: Pgno, right: Tree, s: nat, p: Pool)
    requires Divide(env, lpg, left, rpg, right, s, p).Moved?
    ensures var e := Divide(env, lpg, left, rpg, right, s, p);
            && (s == NumKeys(left) + 1 && NumKeys(right) > 1 ==> e.sep == NodeKeys(right)[1])
            && (s + 1 == NumKeys(left) ==> e.sep == NodeKeys(left)[s])
  {
    hide Sum, KidSizes, ItemSizes, Lowest;
  }

  lemma {:induction false} MovedKey(env: Env, left: Tree, right: Tree, p: Pool)
    requires env.PMax() > 0
    ensures MoveLeft(env, left, right, p).Moved? && CanSpare(env, right) ==> MoveLeft(env, left, right, p).sep == SparedKey(right, true)
    ensures MoveRight(env, left, right, p).Moved? && CanSpare(env, left) ==> MoveRight(env, left, right, p).sep == SparedKey(left, false)
  {
    hide Divide, PageFill, TouchPage, NodeKeys;
    var (rpg, p1) := TouchPage(right.pg, p);
    var (lpg, p2) := TouchPage(left.pg, p1);
    if MoveLeft(env, left, right, p).Moved? { DividedKey(env, lpg, left, rpg, right, NumKeys(left) + 1, p2); }
    var (lpg', p1') := TouchPage(left.pg, p);
    var (rpg', p2') := TouchPage(right.pg, p1');
    if MoveRight(env, left, right, p).Moved? { DividedKey(env, lpg', left, rpg', right, NumKeys(left) - 1, p2'); }
  }

  lemma RowPage(env: Env, kids: seq<Kid>, i: nat, l: Tree, m: nat, sep: Key, r: Tree)
    requires i < |kids| && m < |kids| && i != m
    ensures var row := kids[i := Kid(kids[i].sep, l)][m := Kid(At(sep), r)];
            KidSizes(env, row) == KidSizes(env, kids)[m := KeySize(env, sep)] && KidKeys(row) == KidKeys(kids)[m := sep]
  {
  }

  lemma KeyFitsAnywhere(env: Env, pg: Pgno, kids: seq<Kid>, i: nat, sep: Key)
    requires i < |kids|
    ensures KeyFits(env, pg, kids, i, sep) == KeyFits(env, 0, kids, i, sep)
  {
  }

  /** mdb_rebalance with a neighbour that can spare a node. */
  lemma {:induction false} MoveFollows(env: Env, pg: Pgno, kids: seq<Kid>, i: nat, sub: Tree, p: Pool, d: nat)
    requires env.Ok() && KidsOk(env, kids, d) && i < |kids| && |kids| >= 2 && Sum(KidSizes(env, kids)) <= env.PMax()
    requires Weak(env, sub, d) && InSlot(kids, i, Flat(sub)) && Underfull(env, sub)
    requires CanSpare(env, kids[if i == 0 then 1 else i - 1].sub)
    ensures Follows(env, Rebalance(env, pg, kids[i := Kid(kids[i].sep, sub)], i, p), AboveFate(env, kids, i))
  {
    hide KidsOk, GoodTree, FlatKids, Below, AtLeast, InSlot, Sum, KidSizes, MoveLeft, MoveRight, Underfull, CanSpare, Neighbours,
      KeyFits, SplitBranch, Merge, Weak, BranchVerdict, SparedKey, KidKeys, KeySize, Stores;
    var kids' := kids[i := Kid(kids[i].sep, sub)];
    var m := if i == 0 then 1 else i;
    var left, right := kids'[m - 1].sub, kids'[m].sub;
    PairOf(env, kids, i, sub, m, d);
    MoveFits(env, left, right, kids[m].sep.key, d, p);
    MovedKey(env, left, right, p);
    var e := if i == 0 then MoveLeft(env, left, right, p) else MoveRight(env, left, right, p);
    KeyFitsSame(env, pg, kids, i, sub, m, e.sep);
    KeyFitsAnywhere(env, pg, kids, m, e.sep);
    MovedKids(env, pg, kids, m, e.left, e.sep, e.right, Flat(left) + Flat(right), d);
    if !KeyFits(env, pg, kids, m, e.sep) {
      var rest := kids[..m - 1] + [Kid(kids[m - 1].sep, e.left)] + kids[m + 1..];
      assert kids'[..m - 1] == kids[..m - 1] && kids'[m + 1..] == kids[m + 1..];
      SplitAgrees(env, pg, rest, m, e.sep, e.right, e.p, d);
      RowPage(env, kids, m - 1, e.left, m, e.sep, e.right);
    }
  }

  /** mdb_rebalance with a neighbour that cannot. */
  lemma {:induction false} MergeFollows(env: Env, pg: Pgno, kids: seq<Kid>, i: nat, sub: Tree, p: Pool, d: nat)
    requires env.Ok() && KidsOk(env, kids, d) && i < |kids| && |kids| >= 2
    requires Weak(env, sub, d) && InSlot(kids, i, Flat(sub)) && Underfull(env, sub)
    requires !CanSpare(env, kids[if i == 0 then 1 else i - 1].sub)
    ensures Follows(env, Rebalance(env, pg, kids[i := Kid(kids[i].sep, sub)], i, p), AboveFate(env, kids, i))
  {
    hide KidsOk, GoodTree, FlatKids, Below, AtLeast, InSlot, Sum, MoveLeft, MoveRight, Underfull, CanSpare, Neighbours,
      Merge, Weak, BranchVerdict, SparedKey, KidKeys, KeySize;
    var kids' := kids[i := Kid(kids[i].sep, sub)];
    var m := if i == 0 then 1 else i;
    var left, right := kids'[m - 1].sub, kids'[m].sub;
    PairOf(env, kids, i, sub, m, d);
    MergeFits(env, left, right, kids[m].sep.key, d, p);
    RestParts(env, kids, m, Merge(env, left, right, p).t);
    assert kids'[..m - 1] == kids[..m - 1] && kids'[m + 1..] == kids[m + 1..];
  }

  lemma UnderfullIs(env: Env, t: Tree)
    requires env.PMax() > 0
    ensures Underfull(env, t) <==> TooLittle(env, Used(env, t), NumKeys(t), t.Branch?)
  {
    hide Sum, KidSizes, ItemSizes;
  }

  lemma {:induction false} AboveFollows(env: Env, pg: Pgno, kids: seq<Kid>, i: nat, r: Shrunk, es: seq<Entry>, f: Fate, d: nat)
    requires env.Ok() && KidsOk(env, kids, d) && i < |kids| && |kids| >= 2 && Sum(KidSizes(env, kids)) <= env.PMax()
    requires InSlot(kids, i, es) && Removes(env, r, es, d) && Follows(env, r, f) && (r.Shrunk? ==> r.t.Branch? == kids[i].sub.Branch?)
    ensures Follows(env, Above(env, pg, kids, i, r),
                    match f
                    case Keeps => Keeps
                    case Loses(used, nodes) =>
                      if TooLittle(env, used, nodes, kids[i].sub.Branch?) then AboveFate(env, kids, i) else Keeps
                    case Parts(sep) => FateOf(KidVerdict(env, kids, i + 1, sep))
                    case Stuck => Stuck)
  {
    hide KidsOk, GoodTree, FlatKids, InSlot, Sum, KidSizes, Rebalance, AboveFate, Weak, AddKid, KidVerdict, Underfull, TooLittle,
      CanSpare, Below, AtLeast;
    match r
    case Shrunk(sub, lost, p) =>
      UnderfullIs(env, sub);
      if lost && Underfull(env, sub) {
        if CanSpare(env, kids[if i == 0 then 1 else i - 1].sub) {
          MoveFollows(env, pg, kids, i, sub, p, d);
        } else {
          MergeFollows(env, pg, kids, i, sub, p, d);
        }
      }
    case Swollen(left, sep, right, p) =>
      GrownKids(env, kids, i, left, sep, right, es, d);
      AddKidAgrees(env, pg, kids[i := Kid(kids[i].sep, left)], i + 1, sep, right, p, d);
      SameVerdict(env, kids, i, left, i + 1, sep);
    case _ =>
  }

  /** Pages at one depth are of one kind. */
  lemma {:induction false} SameKind(env: Env, r: Shrunk, es: seq<Entry>, t: Tree, d: nat)
    requires Removes(env, r, es, d) && GoodTree(env, t, d) && r.Shrunk?
    ensures r.t.Branch? == t.Branch?
  {
    hide Sum, KidSizes, ItemSizes, Ascending;
  }

  /** The fate is right: a deletion leaves the page, takes a node from it, splits it at that key, or reports MDB_PAGE_FULL. */
  lemma {:induction false} DelFollows(env: Env, t: Tree, k: Key, p: Pool, d: nat)
    requires env.Ok() && GoodTree(env, t, d) && Searchable(t) && Lookup(Flat(t), k) != Missing
    ensures Follows(env, Del(env, t, k, p), DelFate(env, t, k))
    decreases t
  {
    match t
    case Leaf(_, items) =>
      LeafFollows(env, t, k, p, d);
    case Branch(pg, kids) =>
      var i := ChildAt(kids, k);
      var kid := kids[i];
      assert kid.sub < kid;
      GoodKids(env, t, d);
      OneKid(env, kids, i, d - 1);
      LookupChild(t, k);
      DelFollows(env, kid.sub, k, p, d - 1);
      DelCorrect(env, kid.sub, k, p, d - 1);
      RemoveInSlot(env, kids, i, k, d - 1);
      hide GoodTree, KidsOk, InSlot, Above, Removes, Sum, KidSizes, FlatKids, AboveFate, KidVerdict, TooLittle, Follows;
      var r := Del(env, kid.sub, k, p);
      if r.Shrunk? { SameKind(env, r, Remove(Flat(kid.sub), k), kid.sub, d - 1); }
      AboveFollows(env, pg, kids, i, r, Remove(Flat(kid.sub), k), DelFate(env, kid.sub, k), d - 1);
  }

  lemma {:induction false} LeafFollows(env: Env, t: Tree, k: Key, p: Pool, d: nat)
    requires env.Ok() && t.Leaf? && GoodTree(env, t, d) && Lookup(Flat(t), k) != Missing
    ensures Follows(env, Del(env, t, k, p), DelFate(env, t, k))
  {
    hide Ascending, Remove, Sum, ItemSizes, Lookup, Position, ItemSize;
    GoodItems(env, t, d);
    LookupItems(t.items, k);
    RemovedItemOk(env, t.items, Position(t.items, k));
  }

  /** mdb_del reports MDB_PAGE_FULL exactly if the pages on the way say so. */
  lemma {:induction false} DelIsFullExactly(env: Env, t: Tree, k: Key, p: Pool, d: nat)
    requires env.Ok() && GoodTree(env, t, d) && Searchable(t) && Lookup(Flat(t), k) != Missing
    ensures Del(env, t, k, p).NoSpace? <==> DelRefuses(env, t, k)
  {
    hide GoodTree, Lookup, DelFate, Del;
    DelFollows(env, t, k, p, d);
  }

  // ---- A condition on the pages alone --------------------------------------------------------

  /** Every page has fewer than twenty nodes, so a split always looks at the node sizes. */
  predicate FewNodes(t: Tree)
    decreases t
  {
    NumKeys(t) < 20 &&
    (t.Branch? ==> forall i :: 0 <= i < |t.kids| ==> var kid := t.kids[i]; assert kid.sub < kid; FewNodes(kid.sub))
  }

  /** With fewer than twenty nodes on a page a put does not run out of room. */
  lemma {:induction false} FewNodesTakePut(env: Env, t: Tree, k: Key, v: Val, p: Pool)
    requires env.psize > 0 && Searchable(t) && FewNodes(t)
    ensures !PutRefuses(env, t, k, v, p)
    decreases t
  {
    hide Sum, SplitAt, LeafSize, KeySize, HalvesFit, BranchHalvesFit, InPlace;
    if t.Branch? {
      var kid := t.kids[ChildAt(t.kids, k)];
      assert kid.sub < kid;
      FewNodesTakePut(env, kid.sub, k, v, p);
    }
  }

  /** Nor does a deletion. */
  lemma {:induction false} FewNodesTakeDel(env: Env, t: Tree, k: Key)
    requires env.PMax() > 0 && Searchable(t) && FewNodes(t)
    ensures !DelRefuses(env, t, k)
    decreases t
  {
    hide Sum, SplitAt, KeySize, BranchHalvesFit, TooLittle, CanSpare, SparedKey, KeyFits;
    if t.Branch? {
      var kid := t.kids[ChildAt(t.kids, k)];
      assert kid.sub < kid;
      FewNodesTakeDel(env, kid.sub, k);
    }
  }
}
