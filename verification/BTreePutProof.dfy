/** Storing a binding refines updating the map the tree stands for. */
module BTreePutProof {
  import opened BTree
  import opened BTreeSearch
  import opened PagePool
  import opened SplitPoint
  import opened BTreePut

  /** A sorted sequence of bindings with one binding added or replaced. */
  function Upsert(es: seq<Entry>, k: Key, v: Val): seq<Entry> {
    if es == [] then [Entry(k, v)]
    else if es[0].key < k then [es[0]] + Upsert(es[1..], k, v)
    else if es[0].key == k then [Entry(k, v)] + es[1..]
    else [Entry(k, v)] + es
  }

  /** After an update the key has the new value and every other key its old one. */
  lemma {:induction false} UpsertLookup(es: seq<Entry>, k: Key, v: Val, x: Key)
    requires Ascending(es)
    ensures Lookup(Upsert(es, k, v), x) == if x == k then Found(v) else Lookup(es, x)
  {
    if es != [] {
      if es[0].key < k {
        UpsertLookup(es[1..], k, v, x);
        assert ([es[0]] + Upsert(es[1..], k, v))[1..] == Upsert(es[1..], k, v);
      } else if es[0].key == k {
        assert ([Entry(k, v)] + es[1..])[1..] == es[1..];
      } else {
        assert ([Entry(k, v)] + es)[1..] == es;
      }
    }
  }

  lemma {:induction false} UpsertBounds(es: seq<Entry>, k: Key, v: Val, x: Key)
    ensures Below(es, x) && k < x ==> Below(Upsert(es, k, v), x)
    ensures AtLeast(es, x) && x <= k ==> AtLeast(Upsert(es, k, v), x)
  {
    if es != [] && es[0].key < k {
      UpsertBounds(es[1..], k, v, x);
    }
  }

  /** An update leaves what is below and above its key alone. */
  lemma {:induction false} UpsertMiddle(a: seq<Entry>, b: seq<Entry>, c: seq<Entry>, k: Key, v: Val)
    requires Below(a, k) && AtLeast(c, k + 1)
    ensures Upsert(a + b + c, k, v) == a + Upsert(b, k, v) + c
    decreases |a| + |b|
  {
    hide Below, AtLeast, Upsert;
    UpsertFirst(a + b + c, k, v);
    UpsertFirst(b, k, v);
    if a != [] {
      BelowFirst(a, k);
      assert (a + b + c)[1..] == a[1..] + b + c;
      UpsertMiddle(a[1..], b, c, k, v);
      assert [a[0]] + (a[1..] + Upsert(b, k, v) + c) == a + Upsert(b, k, v) + c;
    } else if b != [] {
      assert (a + b + c)[1..] == b[1..] + c;
      if b[0].key < k {
        UpsertMiddle([], b[1..], c, k, v);
        assert [] + b[1..] + c == b[1..] + c;
      }
    } else {
      BelowFirst(c, k + 1);
      assert a + b + c == c;
    }
  }

  lemma UpsertFirst(es: seq<Entry>, k: Key, v: Val)
    ensures es == [] ==> Upsert(es, k, v) == [Entry(k, v)]
    ensures es != [] && es[0].key < k ==> Upsert(es, k, v) == [es[0]] + Upsert(es[1..], k, v)
    ensures es != [] && es[0].key == k ==> Upsert(es, k, v) == [Entry(k, v)] + es[1..]
    ensures es != [] && es[0].key > k ==> Upsert(es, k, v) == [Entry(k, v)] + es
  {
  }

  lemma BelowFirst(es: seq<Entry>, k: Key)
    ensures Below(es, k) && es != [] ==> es[0].key < k && Below(es[1..], k)
    ensures AtLeast(es, k) && es != [] ==> k <= es[0].key
  {
  }

  // ---- What a page operation must produce ----------------------------------------------------

  /** A value on the page takes no more than a node may, and one on overflow pages fits on its run. */
  ghost predicate ItemOk(env: Env, it: Item) {
    match it.store
    case Inline => NODE_HEADER + env.ksize(it.key) + it.val.size <= env.NodeMax()
    case Overflow(_, n) => PAGE_HEADER + it.val.size <= n * env.psize
  }

  /** Every page holds its nodes, and no node takes more than half a page. */
  ghost predicate Fits(env: Env, t: Tree)
    decreases t
  {
    && Used(env, t) <= env.PMax()
    && match t
       case Leaf(_, items) => forall i :: 0 <= i < |items| ==> ItemOk(env, items[i])
       case Branch(_, kids) => forall i :: 0 <= i < |kids| ==> var kid := kids[i]; assert kid.sub < kid; Fits(env, kid.sub)
  }

  ghost predicate GoodTree(env: Env, t: Tree, d: nat) {
    Sorted(t) && Uniform(t, d) && Fits(env, t)
  }

  /** The outcome holds exactly the bindings `es`, in good order, or reports a full page. */
  ghost predicate Stores(env: Env, g: Grown, es: seq<Entry>, d: nat) {
    match g
    case Same(t) => GoodTree(env, t, d) && Flat(t) == es
    case Split(l, s, r) =>
      && GoodTree(env, l, d) && GoodTree(env, r, d) && Flat(l) + Flat(r) == es
      && Below(Flat(l), s) && AtLeast(Flat(r), s)
    case Full => true
  }

  lemma NewItemFits(env: Env, k: Key, v: Val, p: Pool)
    requires env.Ok()
    ensures var it := NewItem(env, k, v, p).0; ItemOk(env, it) && it.key == k && it.val == v
    ensures ItemSize(env, NewItem(env, k, v, p).0) == LeafSize(env, k, v)
  {
    hide NewRun, OverflowPages;
    OverflowPagesHold(env, v.size);
  }

  lemma ItemSizeBound(env: Env, it: Item)
    requires env.Ok() && ItemOk(env, it)
    ensures 0 < ItemSize(env, it) && 2 * ItemSize(env, it) <= env.PMax()
  {
  }

  lemma SizesAppend(env: Env, a: seq<Item>, b: seq<Item>)
    ensures ItemSizes(env, a + b) == ItemSizes(env, a) + ItemSizes(env, b)
  {
  }

  /** Inserting a node adds its size to the page. */
  lemma InsertedSum(env: Env, items: seq<Item>, i: nat, it: Item)
    requires i <= |items|
    ensures var ns := ItemSizes(env, items[..i] + [it] + items[i..]);
            ns[i] == ItemSize(env, it) && Sum(ns) == Sum(ItemSizes(env, items)) + ItemSize(env, it)
  {
    var a, c := items[..i], items[i..];
    SizesAppend(env, a + [it], c);
    SizesAppend(env, a, [it]);
    SizesAppend(env, a, c);
    assert a + c == items;
    SumAppend(ItemSizes(env, a) + ItemSizes(env, [it]), ItemSizes(env, c));
    SumAppend(ItemSizes(env, a), ItemSizes(env, [it]));
    SumAppend(ItemSizes(env, a), ItemSizes(env, c));
    assert ItemSizes(env, [it])[1..] == [];
  }

  ghost predicate ItemsOk(env: Env, items: seq<Item>) {
    && Ascending(Entries(items)) && Sum(ItemSizes(env, items)) <= env.PMax()
    && forall i :: 0 <= i < |items| ==> ItemOk(env, items[i])
  }

  /** A page to which a node no longer fits is one that mdb_page_split can divide. */
  lemma LeafSplittable(env: Env, items: seq<Item>, i: nat, it: Item)
    requires env.Ok() && ItemsOk(env, items) && i <= |items| && ItemOk(env, it)
    requires Sum(ItemSizes(env, items)) + ItemSize(env, it) > env.PMax()
    ensures Splittable(ItemSizes(env, items[..i] + [it] + items[i..]), i, env.PMax())
  {
    var items' := items[..i] + [it] + items[i..];
    InsertedSum(env, items, i, it);
    forall j | 0 <= j < |items'| ensures ItemOk(env, items'[j]) { }
    forall j | 0 <= j < |items'| ensures 0 < ItemSizes(env, items')[j] && 2 * ItemSizes(env, items')[j] <= env.PMax() {
      ItemSizeBound(env, items'[j]);
    }
    if |items| == 1 {
      ItemSizeBound(env, items[0]);
      assert ItemSizes(env, items)[1..] == [];
    }
    ItemSizeBound(env, it);
  }

  lemma EntriesAppend(a: seq<Item>, b: seq<Item>)
    ensures Entries(a + b) == Entries(a) + Entries(b)
  {
  }

  lemma AscendingInserted(a: seq<Entry>, e: Entry, c: seq<Entry>)
    requires Ascending(a + c) && Below(a, e.key) && AtLeast(c, e.key + 1)
    ensures Ascending(a + [e] + c)
  {
    var es, es' := a + c, a + [e] + c;
    assert forall j :: 0 <= j < |a| ==> es'[j] == es[j] == a[j];
    assert forall j :: |a| < j < |es'| ==> es'[j] == es[j - 1] == c[j - 1 - |a|];
  }

  /** The items of a leaf with one more, in order. */
  lemma InsertedOrder(items: seq<Item>, i: nat, it: Item)
    requires i <= |items| && Ascending(Entries(items))
    requires forall j :: 0 <= j < i ==> items[j].key < it.key
    requires forall j :: i <= j < |items| ==> it.key < items[j].key
    ensures Ascending(Entries(items[..i] + [it] + items[i..]))
    ensures Entries(items[..i] + [it] + items[i..]) == Entries(items[..i]) + [Entry(it.key, it.val)] + Entries(items[i..])
  {
    hide Ascending;
    var a, c := items[..i], items[i..];
    assert a + c == items;
    EntriesAppend(a, c);
    EntriesAppend(a + [it], c);
    EntriesAppend(a, [it]);
    assert Entries([it]) == [Entry(it.key, it.val)];
    AscendingInserted(Entries(a), Entry(it.key, it.val), Entries(c));
  }

  lemma LeafGood(env: Env, pg: Pgno, items: seq<Item>)
    requires |items| > 0 && ItemsOk(env, items)
    ensures GoodTree(env, Leaf(pg, items), 1)
  {
  }

  lemma LeafStores(env: Env, pg: Pgno, items: seq<Item>)
    requires |items| > 0 && ItemsOk(env, items)
    ensures Stores(env, Same(Leaf(pg, items)), Entries(items), 1)
  {
    LeafGood(env, pg, items);
  }

  lemma HalvesOrdered(es: seq<Entry>, s: nat)
    requires Ascending(es) && s < |es|
    ensures Ascending(es[..s]) && Ascending(es[s..])
    ensures Below(es[..s], es[s].key) && AtLeast(es[s..], es[s].key)
  {
  }

  lemma LeafSplitStores(env: Env, pg: Pgno, rp: Pgno, items: seq<Item>, s: nat)
    requires 0 < s < |items| && Ascending(Entries(items))
    requires forall i :: 0 <= i < |items| ==> ItemOk(env, items[i])
    requires Used(env, Leaf(pg, items[..s])) <= env.PMax() && Used(env, Leaf(rp, items[s..])) <= env.PMax()
    ensures Stores(env, Split(Leaf(pg, items[..s]), items[s].key, Leaf(rp, items[s..])), Entries(items), 1)
  {
    hide Ascending, Below, AtLeast, Sum, ItemSizes, ItemOk, GoodTree;
    var es, a, b := Entries(items), items[..s], items[s..];
    assert a + b == items;
    EntriesAppend(a, b);
    assert es[..s] == Entries(a) && es[s..] == Entries(b);
    HalvesOrdered(es, s);
    LeafGood(env, pg, a);
    LeafGood(env, rp, b);
  }

  lemma AddItemStores(env: Env, pg: Pgno, items: seq<Item>, i: nat, k: Key, v: Val, p: Pool)
    requires env.Ok() && ItemsOk(env, items) && i <= |items|
    requires forall j :: 0 <= j < i ==> items[j].key < k
    requires forall j :: i <= j < |items| ==> k < items[j].key
    ensures Stores(env, AddItem(env, pg, items, i, k, v, p).0,
                   Entries(items[..i]) + [Entry(k, v)] + Entries(items[i..]), 1)
  {
    var it := NewItem(env, k, v, p).0;
    var items' := items[..i] + [it] + items[i..];
    NewItemFits(env, k, v, p);
    InsertedSum(env, items, i, it);
    InsertedOrder(items, i, it);
    assert forall j :: 0 <= j < |items'| ==> ItemOk(env, items'[j]);
    hide Stores, Sum, ItemSizes, SplitIndex, Ascending;
    var g := AddItem(env, pg, items, i, k, v, p).0;
    match g
    case Same(t) => LeafStores(env, pg, items');
    case Split(l, s, r) => LeafSplitStores(env, pg, r.pg, items', |l.items|);
    case Full => FullStores(env, Entries(items[..i]) + [Entry(k, v)] + Entries(items[i..]), 1);
  }

  /**
   A node is added to its leaf if the page has room for it, in bytes: the header of 8, the key, the
   value or, if they are more than a node may take, a page number of 8, rounded up to an even number,
   and the slot of 2. Only otherwise is the page split.
   */
  lemma SplitsOnlyWhenFull(env: Env, pg: Pgno, items: seq<Item>, i: nat, k: Key, v: Val, p: Pool)
    requires env.Ok() && i <= |items|
    ensures var node := 8 + env.ksize(k) + v.size;
            var kept := if node > env.NodeMax() then 8 + env.ksize(k) + 8 else node;
            var fits := Sum(ItemSizes(env, items)) + kept + kept % 2 + 2 <= env.psize - 16;
            var g := AddItem(env, pg, items, i, k, v, p).0;
            && (fits <==> g.Same?)
            && (fits ==> g.t.Leaf? && g.t.pg == pg && |g.t.items| == |items| + 1 && g.t.items[i].key == k && g.t.items[i].val == v)
  {
    hide Sum, SplitIndex, ItemSizes;
    NewItemFits(env, k, v, p);
  }

  lemma FullStores(env: Env, es: seq<Entry>, d: nat)
    ensures Stores(env, Full, es, d)
  {
  }

  lemma {:induction false} UpsertItems(items: seq<Item>, k: Key, v: Val)
    requires Ascending(Entries(items))
    ensures var i := Position(items, k); var es := Entries(items);
            Upsert(es, k, v) ==
            es[..i] + [Entry(k, v)] + (if i < |items| && items[i].key == k then es[i + 1..] else es[i..])
  {
    var i, es := Position(items, k), Entries(items);
    var b := if i < |items| && items[i].key == k then [es[i]] else [];
    var a, c := es[..i], es[i + |b|..];
    assert es == a + b + c;
    assert AtLeast(c, k + 1) by {
      forall j | 0 <= j < |c| ensures k + 1 <= c[j].key {
        assert c[j] == es[i + |b| + j];
        assert i < i + |b| + j ==> es[i].key < es[i + |b| + j].key;
      }
    }
    UpsertMiddle(a, b, c, k, v);
    assert Upsert(b, k, v) == [Entry(k, v)] by { if b != [] { assert b[1..] == []; } }
  }

  lemma AscendingRemoved(es: seq<Entry>, i: nat)
    requires Ascending(es) && i < |es|
    ensures Ascending(es[..i] + es[i + 1..])
  {
  }

  lemma RemovedItemOk(env: Env, items: seq<Item>, i: nat)
    requires env.Ok() && i < |items| && ItemsOk(env, items)
    ensures var items' := items[..i] + items[i + 1..];
            && ItemsOk(env, items')
            && Sum(ItemSizes(env, items')) == Sum(ItemSizes(env, items)) - ItemSize(env, items[i])
  {
    hide Ascending, Sum, ItemSizes, ItemSize, ItemOk;
    var a, it, c := items[..i], items[i], items[i + 1..];
    assert items == (a + c)[..i] + [it] + (a + c)[i..];
    InsertedSum(env, a + c, i, it);
    ItemSizeBound(env, it);
    EntriesAppend(a, c);
    AscendingRemoved(Entries(items), i);
    assert Entries(a) == Entries(items)[..i] && Entries(c) == Entries(items)[i + 1..];
    assert forall j :: 0 <= j < |a + c| ==> (a + c)[j] in items;
  }

  /** Replacing a value by one that takes the same space. */
  lemma OverwriteStores(env: Env, pg: Pgno, items: seq<Item>, i: nat, v: Val)
    requires ItemsOk(env, items) && i < |items| && (items[i].store.Inline? ==> v.size == items[i].val.size)
    requires items[i].store.Overflow? ==> PAGE_HEADER + v.size <= items[i].store.n * env.psize
    ensures var es := Entries(items);
            Stores(env, Same(Leaf(pg, items[i := items[i].(val := v)])),
                   es[..i] + [Entry(items[i].key, v)] + es[i + 1..], 1)
  {
    var es := Entries(items);
    var items' := items[i := items[i].(val := v)];
    assert Entries(items') == es[i := Entry(items[i].key, v)];
    assert es[i := Entry(items[i].key, v)] == es[..i] + [Entry(items[i].key, v)] + es[i + 1..];
    assert ItemSizes(env, items') == ItemSizes(env, items);
  }

  /** Removing the old node and adding the new one. */
  lemma ReplaceItemStores(env: Env, pg: Pgno, items: seq<Item>, i: nat, v: Val, p: Pool)
    requires env.Ok() && ItemsOk(env, items) && i < |items|
    ensures var es := Entries(items);
            Stores(env, AddItem(env, pg, items[..i] + items[i + 1..], i, items[i].key, v, p).0,
                   es[..i] + [Entry(items[i].key, v)] + es[i + 1..], 1)
  {
    var es, rest := Entries(items), items[..i] + items[i + 1..];
    assert forall j :: 0 <= j < |items| ==> es[j].key == items[j].key;
    RemovedItemOk(env, items, i);
    hide Stores, Sum, AddItem;
    assert Entries(rest[..i]) == es[..i] && Entries(rest[i..]) == es[i + 1..];
    AddItemStores(env, pg, rest, i, items[i].key, v, p);
  }

  lemma {:induction false} NewItemStores(env: Env, pg: Pgno, items: seq<Item>, k: Key, v: Val, p: Pool)
    requires env.Ok() && ItemsOk(env, items)
    requires var i := Position(items, k); i < |items| ==> items[i].key != k
    ensures Stores(env, AddItem(env, pg, items, Position(items, k), k, v, p).0, Upsert(Entries(items), k, v), 1)
  {
    var i, es := Position(items, k), Entries(items);
    assert forall j :: i < j < |items| ==> es[i].key < es[j].key;
    UpsertItems(items, k, v);
    assert Entries(items[..i]) == es[..i] && Entries(items[i..]) == es[i..];
    hide Stores, AddItem, Sum, Upsert;
    AddItemStores(env, pg, items, i, k, v, p);
  }

  lemma ItemsInOrder(env: Env, items: seq<Item>)
    requires ItemsOk(env, items)
    ensures Ascending(Entries(items))
  {
  }

  lemma {:induction false} OldItemStores(env: Env, pg: Pgno, items: seq<Item>, k: Key, v: Val, p: Pool)
    requires env.Ok() && ItemsOk(env, items)
    requires var i := Position(items, k); i < |items| && items[i].key == k
    ensures Stores(env, PutLeaf(env, pg, items, k, v, p).0, Upsert(Entries(items), k, v), 1)
  {
    hide Stores, ItemsOk, AddItem, Sum, Upsert, Position, OverflowPages;
    var i := Position(items, k);
    ItemsInOrder(env, items);
    UpsertItems(items, k, v);
    ReplaceItemStores(env, pg, items, i, v, if items[i].store.Overflow? then FreeRun(p, items[i].store.pg, items[i].store.n) else p);
    if items[i].store.Overflow? { LongEnough(env, items[i].store.n, v.size); }
    if if items[i].store.Overflow? then items[i].store.n >= OverflowPages(env, v.size) else items[i].val.size == v.size {
      OverwriteStores(env, pg, items, i, v);
    }
  }

  lemma {:induction false} PutLeafStores(env: Env, pg: Pgno, items: seq<Item>, k: Key, v: Val, p: Pool)
    requires env.Ok() && ItemsOk(env, items)
    ensures Stores(env, PutLeaf(env, pg, items, k, v, p).0, Upsert(Entries(items), k, v), 1)
  {
    hide Stores, ItemsOk, AddItem, Sum, Upsert, Position;
    var i := Position(items, k);
    if i < |items| && items[i].key == k {
      OldItemStores(env, pg, items, k, v, p);
    } else {
      NewItemStores(env, pg, items, k, v, p);
    }
  }

  // ---- Branch pages --------------------------------------------------------------------------

  ghost predicate KidsOk(env: Env, kids: seq<Kid>, d: nat) {
    && Separated(kids) && d > 0
    && forall i :: 0 <= i < |kids| ==> GoodTree(env, kids[i].sub, d)
  }

  lemma BranchGood(env: Env, pg: Pgno, kids: seq<Kid>, d: nat)
    requires KidsOk(env, kids, d) && |kids| >= 2 && Sum(KidSizes(env, kids)) <= env.PMax()
    ensures GoodTree(env, Branch(pg, kids), d + 1)
  {
    var t := Branch(pg, kids);
    forall i | 0 <= i < |kids| ensures Sorted(kids[i].sub) && Uniform(kids[i].sub, d) && Fits(env, kids[i].sub) { }
  }

  lemma KidSizesAppend(env: Env, a: seq<Kid>, b: seq<Kid>)
    ensures KidSizes(env, a + b) == KidSizes(env, a) + KidSizes(env, b)
  {
  }

  lemma InsertedKidSum(env: Env, kids: seq<Kid>, i: nat, kid: Kid)
    requires i <= |kids|
    ensures var ns := KidSizes(env, kids[..i] + [kid] + kids[i..]);
            ns[i] == KidSize(env, kid) && Sum(ns) == Sum(KidSizes(env, kids)) + KidSize(env, kid)
  {
    var a, c := kids[..i], kids[i..];
    KidSizesAppend(env, a + [kid], c);
    KidSizesAppend(env, a, [kid]);
    KidSizesAppend(env, a, c);
    assert a + c == kids;
    SumAppend(KidSizes(env, a) + KidSizes(env, [kid]), KidSizes(env, c));
    SumAppend(KidSizes(env, a), KidSizes(env, [kid]));
    SumAppend(KidSizes(env, a), KidSizes(env, c));
    assert KidSizes(env, [kid])[1..] == [];
  }

  lemma KidSizeBound(env: Env, kid: Kid)
    requires env.Ok()
    ensures 10 <= KidSize(env, kid) <= 522 && KidSize(env, kid) % 2 == 0
    ensures kid.sep.At? ==> BranchSize(env, kid.sep) <= KidSize(env, kid) <= BranchSize(env, kid.sep) + 1
  {
  }

  lemma {:induction false} EvenSum(ns: seq<int>)
    requires forall i :: 0 <= i < |ns| ==> ns[i] % 2 == 0
    ensures Sum(ns) % 2 == 0
  {
    if ns != [] { EvenSum(ns[1..]); }
  }

  /** The unrounded test of mdb_page_split against the room left decides whether the node fits. */
  lemma RoomForKid(env: Env, kids: seq<Kid>, kid: Kid)
    requires env.Ok() && kid.sep.At?
    ensures env.PMax() - Sum(KidSizes(env, kids)) >= BranchSize(env, kid.sep) <==>
            Sum(KidSizes(env, kids)) + KidSize(env, kid) <= env.PMax()
  {
    forall i | 0 <= i < |kids| ensures KidSizes(env, kids)[i] % 2 == 0 { KidSizeBound(env, kids[i]); }
    EvenSum(KidSizes(env, kids));
    KidSizeBound(env, kid);
  }

  lemma {:induction false} RightHalfFlat(kids: seq<Kid>, s: nat)
    requires s < |kids|
    ensures FlatKids(kids[..s]) + FlatKids(RightHalf(kids, s)) == FlatKids(kids)
  {
    hide FlatKids;
    FlatSplit(kids, s);
    FlatAppend([Kid(Empty, kids[s].sub)], kids[s + 1..]);
    FlatOne(Kid(Empty, kids[s].sub));
    assert FlatKids(kids[..s]) + (Flat(kids[s].sub) + FlatKids(kids[s + 1..])) ==
           FlatKids(kids[..s]) + Flat(kids[s].sub) + FlatKids(kids[s + 1..]);
  }

  lemma {:induction false} BranchHalves(env: Env, kids: seq<Kid>, s: nat, d: nat)
    requires KidsOk(env, kids, d) && 0 < s < |kids|
    ensures KidsOk(env, kids[..s], d) && KidsOk(env, RightHalf(kids, s), d)
    ensures Below(FlatKids(kids[..s]), kids[s].sep.key) && AtLeast(FlatKids(RightHalf(kids, s)), kids[s].sep.key)
  {
    hide GoodTree, Below, AtLeast;
    var left, right := kids[..s], RightHalf(kids, s);
    assert forall j :: 0 < j < |right| ==> right[j] == kids[s + j];
    assert forall j :: 0 <= j < |right| ==> right[j].sub == kids[s + j].sub;
    KidsBound(left, kids[s].sep.key);
    KidsBound(right, kids[s].sep.key);
  }

  /** A branch whose split leaves at least two children on either side. */
  lemma {:induction false} BranchSplitStores(env: Env, pg: Pgno, rp: Pgno, kids: seq<Kid>, s: nat, d: nat)
    requires KidsOk(env, kids, d) && 2 <= s && s + 2 <= |kids|
    requires Used(env, Branch(pg, kids[..s])) <= env.PMax() && Used(env, Branch(rp, RightHalf(kids, s))) <= env.PMax()
    ensures Stores(env, Split(Branch(pg, kids[..s]), kids[s].sep.key, Branch(rp, RightHalf(kids, s))), FlatKids(kids), d + 1)
  {
    BranchHalves(env, kids, s, d);
    RightHalfFlat(kids, s);
    hide KidsOk, GoodTree, FlatKids;
    BranchGood(env, pg, kids[..s], d);
    BranchGood(env, rp, RightHalf(kids, s), d);
  }

  // ---- Where a branch page is divided ----------------------------------------------------------

  lemma {:induction false} SumAtMost(ns: seq<int>, m: int)
    requires m >= 0 && forall i :: 0 <= i < |ns| ==> ns[i] <= m
    ensures Sum(ns) <= |ns| * m
  {
    if ns != [] { SumAtMost(ns[1..], m); }
  }

  lemma SplittableShape(sizes: seq<int>, i: nat, pmax: int)
    requires Splittable(sizes, i, pmax)
    ensures |sizes| >= 3 && i < |sizes|
  {
  }

  /** A full branch has at least eight nodes, and its split leaves at least two on either side. */
  lemma {:induction false} BranchSplitPoint(sizes: seq<int>, i: nat, pmax: int)
    requires Splittable(sizes, i, pmax) && pmax >= 4080 && i > 0
    requires forall x :: 0 <= x < |sizes| ==> sizes[x] <= 522
    requires Sum(sizes) > pmax
    ensures |sizes| >= 8 && 2 <= SplitIndex(sizes, i, pmax) <= |sizes| - 2
  {
    hide Sum, Splittable, FromLeft, FromRight;
    SumAtMost(sizes, 522);
    SplittableShape(sizes, i, pmax);
    var nkeys, mid := |sizes| - 1, Midpoint(sizes);
    if Scans(sizes, i, pmax) {
      SumNone(sizes);
      if i >= nkeys {
        FromLeftSum(sizes, 0, nkeys, pmax);
        FewFit(sizes, FromLeft(sizes, 0, nkeys, 0, pmax), pmax);
      } else if i <= mid {
        FromLeftSum(sizes, 0, mid + 2, pmax);
        FewFit(sizes, FromLeft(sizes, 0, mid + 2, 0, pmax), pmax);
      } else {
        FromRightSum(sizes, nkeys, mid - 1, pmax);
        FewFit(sizes, FromRight(sizes, nkeys, mid - 1, 0, pmax) - 1, pmax);
      }
    }
  }

  lemma {:induction false} FewFit(sizes: seq<int>, x: nat, pmax: int)
    requires x < |sizes| && pmax >= 4080 && forall y :: 0 <= y < |sizes| ==> sizes[y] <= 522
    ensures Sum(sizes[..x + 1]) > pmax ==> x >= 7
    ensures Sum(sizes[x..]) > pmax ==> |sizes| - x >= 8
  {
    SumAtMost(sizes[..x + 1], 522);
    SumAtMost(sizes[x..], 522);
  }

  lemma {:induction false} BranchSplittable(env: Env, kids: seq<Kid>, i: nat, kid: Kid)
    requires env.Ok() && i <= |kids| && Sum(KidSizes(env, kids)) <= env.PMax()
    requires Sum(KidSizes(env, kids)) + KidSize(env, kid) > env.PMax()
    ensures var ns := KidSizes(env, kids[..i] + [kid] + kids[i..]);
            && Splittable(ns, i, env.PMax()) && Sum(ns) > env.PMax()
            && forall x :: 0 <= x < |ns| ==> ns[x] <= 522
  {
    var kids' := kids[..i] + [kid] + kids[i..];
    var ns := KidSizes(env, kids');
    InsertedKidSum(env, kids, i, kid);
    forall x | 0 <= x < |ns| ensures 0 < ns[x] <= 522 { KidSizeBound(env, kids'[x]); }
    SumAtMost(ns, 522);
  }

  /** Splitting a branch that has no room for one more child keeps it in order. */
  lemma {:induction false} SplitBranchStores(env: Env, pg: Pgno, kids: seq<Kid>, i: nat, sep: Key, sub: Tree, p: Pool, d: nat)
    requires env.Ok() && 0 < i <= |kids| && Sum(KidSizes(env, kids)) <= env.PMax()
    requires Sum(KidSizes(env, kids)) + KidSize(env, Kid(At(sep), sub)) > env.PMax()
    requires KidsOk(env, kids[..i] + [Kid(At(sep), sub)] + kids[i..], d)
    ensures Stores(env, SplitBranch(env, pg, kids, i, sep, sub, p).0, FlatKids(kids[..i] + [Kid(At(sep), sub)] + kids[i..]), d + 1)
  {
    hide KidsOk, Sum, KidSizes, SplitIndex, FlatKids, Stores;
    var kid := Kid(At(sep), sub);
    var kids' := kids[..i] + [kid] + kids[i..];
    BranchSplittable(env, kids, i, kid);
    BranchSplitPoint(KidSizes(env, kids'), i, env.PMax());
    var s := SplitIndex(KidSizes(env, kids'), i, env.PMax());
    var g := SplitBranch(env, pg, kids, i, sep, sub, p).0;
    if g.Split? {
      BranchSplitStores(env, pg, g.right.pg, kids', s, d);
    } else {
      assert g == Full;
      FullStores(env, FlatKids(kids'), d + 1);
    }
  }

  /** Linking a new sibling keeps a branch in order, whether or not the page is split. */
  lemma {:induction false} AddKidStores(env: Env, pg: Pgno, kids: seq<Kid>, i: nat, sep: Key, sub: Tree, p: Pool, d: nat)
    requires env.Ok() && 0 < i <= |kids| && Sum(KidSizes(env, kids)) <= env.PMax()
    requires KidsOk(env, kids[..i] + [Kid(At(sep), sub)] + kids[i..], d)
    ensures Stores(env, AddKid(env, pg, kids, i, sep, sub, p).0, FlatKids(kids[..i] + [Kid(At(sep), sub)] + kids[i..]), d + 1)
  {
    hide KidsOk, Sum, KidSizes, SplitBranch, FlatKids;
    var kid := Kid(At(sep), sub);
    RoomForKid(env, kids, kid);
    InsertedKidSum(env, kids, i, kid);
    if env.PMax() - Sum(KidSizes(env, kids)) >= BranchSize(env, At(sep)) {
      BranchGood(env, pg, kids[..i] + [kid] + kids[i..], d);
    } else {
      SplitBranchStores(env, pg, kids, i, sep, sub, p, d);
    }
  }

  // ---- The child that was stored into --------------------------------------------------------

  /** The bindings of a new child lie between the separators around it, as the old ones did. */
  ghost predicate InSlot(kids: seq<Kid>, i: nat, es: seq<Entry>)
    requires forall j :: 0 < j < |kids| ==> kids[j].sep.At?
  {
    && (forall j :: 0 < j <= i && j < |kids| ==> AtLeast(es, kids[j].sep.key))
    && (forall j :: i < j < |kids| ==> Below(es, kids[j].sep.key))
  }

  lemma {:induction false} UpsertInSlot(t: Tree, k: Key, v: Val)
    requires t.Branch? && Sorted(t)
    ensures var i := ChildAt(t.kids, k); InSlot(t.kids, i, Upsert(Flat(t.kids[i].sub), k, v))
  {
    var kids, i := t.kids, ChildAt(t.kids, k);
    forall j | 0 < j <= i ensures AtLeast(Upsert(Flat(kids[i].sub), k, v), kids[j].sep.key) {
      UpsertBounds(Flat(kids[i].sub), k, v, kids[j].sep.key);
      if j < i { SepsAscend(t, j, i); }
    }
    forall j | i < j < |kids| ensures Below(Upsert(Flat(kids[i].sub), k, v), kids[j].sep.key) {
      UpsertBounds(Flat(kids[i].sub), k, v, kids[j].sep.key);
    }
  }

  /** The bindings of a branch whose child i was replaced. */
  lemma {:induction false} ReplacedFlat(kids: seq<Kid>, i: nat, sub: Tree)
    requires i < |kids|
    ensures FlatKids(kids[i := Kid(kids[i].sep, sub)]) == FlatKids(kids[..i]) + Flat(sub) + FlatKids(kids[i + 1..])
  {
    var kids' := kids[i := Kid(kids[i].sep, sub)];
    FlatSplit(kids', i);
    assert kids'[..i] == kids[..i] && kids'[i + 1..] == kids[i + 1..];
  }

  lemma {:induction false} ReplacedKids(env: Env, kids: seq<Kid>, i: nat, sub: Tree, d: nat)
    requires KidsOk(env, kids, d) && i < |kids| && GoodTree(env, sub, d)
    requires InSlot(kids, i, Flat(sub))
    ensures KidsOk(env, kids[i := Kid(kids[i].sep, sub)], d)
  {
    hide GoodTree, Below, AtLeast;
  }

  /** An update in a branch is an update in the child the key belongs under. */
  lemma {:induction false} UpsertChild(t: Tree, k: Key, v: Val)
    requires t.Branch? && Sorted(t)
    ensures var i := ChildAt(t.kids, k);
            Upsert(Flat(t), k, v) ==
            FlatKids(t.kids[..i]) + Upsert(Flat(t.kids[i].sub), k, v) + FlatKids(t.kids[i + 1..])
  {
    var i := ChildAt(t.kids, k);
    ChildDivides(t, k);
    FlatSplit(t.kids, i);
    hide Upsert, FlatKids;
    UpsertMiddle(FlatKids(t.kids[..i]), Flat(t.kids[i].sub), FlatKids(t.kids[i + 1..]), k, v);
  }

  lemma {:induction false} InsertedKids(env: Env, kids: seq<Kid>, m: nat, sep: Key, sub: Tree, d: nat)
    requires KidsOk(env, kids, d) && 0 < m <= |kids| && GoodTree(env, sub, d)
    requires forall j :: 0 <= j < m ==> Below(Flat(kids[j].sub), sep)
    requires forall j :: m <= j < |kids| ==> AtLeast(Flat(kids[j].sub), sep)
    requires AtLeast(Flat(sub), sep) && InSlot(kids, m - 1, Flat(sub))
    ensures KidsOk(env, kids[..m] + [Kid(At(sep), sub)] + kids[m..], d)
  {
    hide GoodTree, Below, AtLeast;
    var kids' := kids[..m] + [Kid(At(sep), sub)] + kids[m..];
    assert forall j :: 0 <= j < |kids'| ==> kids'[j] == if j < m then kids[j] else if j == m then Kid(At(sep), sub) else kids[j - 1];
  }

  lemma {:induction false} Between(a: seq<Entry>, b: seq<Entry>, x: Key, y: Key)
    requires |b| > 0 && Below(a, x) && AtLeast(b, x) && Below(b, y)
    ensures Below(a, y)
    ensures x < y
  {
    assert x <= b[0].key < y;
  }

  lemma {:induction false} BetweenAbove(a: seq<Entry>, b: seq<Entry>, x: Key, y: Key)
    requires |b| > 0 && AtLeast(a, x) && Below(b, x) && AtLeast(b, y)
    ensures AtLeast(a, y)
  {
    assert y <= b[0].key < x;
  }

  /** A child that split: its halves and the separator between them fit where it was. */
  lemma {:induction false} SplitKids(env: Env, kids: seq<Kid>, i: nat, left: Tree, sep: Key, right: Tree, d: nat)
    requires KidsOk(env, kids, d) && i < |kids| && GoodTree(env, left, d) && GoodTree(env, right, d)
    requires InSlot(kids, i, Flat(left) + Flat(right))
    requires Below(Flat(left), sep) && AtLeast(Flat(right), sep)
    ensures var kids1 := kids[i := Kid(kids[i].sep, left)];
            KidsOk(env, kids1[..i + 1] + [Kid(At(sep), right)] + kids1[i + 1..], d)
  {
    var kids1 := kids[i := Kid(kids[i].sep, left)];
    forall x ensures (Below(Flat(left) + Flat(right), x) ==> Below(Flat(left), x) && Below(Flat(right), x))
                  && (AtLeast(Flat(left) + Flat(right), x) ==> AtLeast(Flat(left), x) && AtLeast(Flat(right), x)) {
      BelowAppend(Flat(left), Flat(right), x);
    }
    FlatNonEmpty(left);
    FlatNonEmpty(right);
    hide GoodTree, Below, AtLeast;
    ReplacedKids(env, kids, i, left, d);
    forall j | 0 <= j < i + 1 ensures Below(Flat(kids1[j].sub), sep) {
      if j < i { Between(Flat(kids[j].sub), Flat(left), kids[i].sep.key, sep); }
    }
    forall j | i + 1 <= j < |kids1| ensures AtLeast(Flat(kids1[j].sub), sep) {
      BetweenAbove(Flat(kids[j].sub), Flat(right), kids[i + 1].sep.key, sep);
    }
    assert InSlot(kids1, i, Flat(right));
    InsertedKids(env, kids1, i + 1, sep, right, d);
  }

  lemma {:induction false} SplitFlat(kids: seq<Kid>, i: nat, left: Tree, sep: Key, right: Tree)
    requires i < |kids|
    ensures var kids1 := kids[i := Kid(kids[i].sep, left)];
            FlatKids(kids1[..i + 1] + [Kid(At(sep), right)] + kids1[i + 1..]) ==
            FlatKids(kids[..i]) + (Flat(left) + Flat(right)) + FlatKids(kids[i + 1..])
  {
    hide FlatKids;
    var kids1 := kids[i := Kid(kids[i].sep, left)];
    var kids' := kids1[..i + 1] + [Kid(At(sep), right)] + kids1[i + 1..];
    var a, l, r, c := kids[..i], Kid(kids[i].sep, left), Kid(At(sep), right), kids[i + 1..];
    assert kids' == a + ([l] + ([r] + c));
    FlatAppend(a, [l] + ([r] + c));
    FlatAppend([l], [r] + c);
    FlatAppend([r], c);
    FlatOne(l);
    FlatOne(r);
    assert FlatKids(a) + (Flat(left) + (Flat(right) + FlatKids(c))) == FlatKids(a) + (Flat(left) + Flat(right)) + FlatKids(c);
  }

  /** Replacing only the subtree under a separator changes no size on the page. */
  lemma {:induction false} SameSizes(env: Env, kids: seq<Kid>, i: nat, sub: Tree)
    requires i < |kids|
    ensures KidSizes(env, kids[i := Kid(kids[i].sep, sub)]) == KidSizes(env, kids)
  {
  }

  lemma {:induction false} GoodKids(env: Env, t: Tree, d: nat)
    requires t.Branch? && GoodTree(env, t, d)
    ensures d > 1 && KidsOk(env, t.kids, d - 1) && |t.kids| >= 2 && Sum(KidSizes(env, t.kids)) <= env.PMax()
  {
    forall i | 0 <= i < |t.kids| ensures GoodTree(env, t.kids[i].sub, d - 1) {
      var kid := t.kids[i];
      assert kid.sub < kid;
    }
  }

  lemma {:induction false} GoodItems(env: Env, t: Tree, d: nat)
    requires t.Leaf? && GoodTree(env, t, d)
    ensures d == 1 && ItemsOk(env, t.items)
  {
  }

  /**
   Insertion refines map update: unless a page fills up, the tree or the two halves it split
   into hold the old bindings with one added or replaced, in good order and of the same depth.
   */
  lemma {:induction false} PutCorrect(env: Env, t: Tree, k: Key, v: Val, p: Pool, d: nat)
    requires env.Ok() && GoodTree(env, t, d) && Searchable(t)
    ensures Stores(env, Put(env, t, k, v, p).0, Upsert(Flat(t), k, v), d)
    decreases t
  {
    match t
    case Leaf(pg, items) =>
      GoodItems(env, t, d);
      PutLeafStores(env, pg, items, k, v, p);
    case Branch(pg, kids) =>
      var i := ChildAt(kids, k);
      var kid := kids[i];
      assert kid.sub < kid;
      GoodKids(env, t, d);
      PutCorrect(env, kid.sub, k, v, p, d - 1);
      UpsertChild(t, k, v);
      UpsertInSlot(t, k, v);
      BranchPutCorrect(env, t, i, Put(env, kid.sub, k, v, p).0, Upsert(Flat(kid.sub), k, v), Put(env, kid.sub, k, v, p).1, d);
  }

  /** What becomes of a branch once the child below it has been stored into. */
  function Carry(env: Env, t: Tree, i: nat, g: Grown, p: Pool): Grown
    requires t.Branch? && i < |t.kids|
  {
    match g
    case Same(t') => Same(Branch(t.pg, t.kids[i := Kid(t.kids[i].sep, t')]))
    case Split(left, sep, right) =>
      AddKid(env, t.pg, t.kids[i := Kid(t.kids[i].sep, left)], i + 1, sep, right, p).0
    case Full => Full
  }

  lemma {:induction false} BranchPutCorrect(env: Env, t: Tree, i: nat, g: Grown, es: seq<Entry>, p: Pool, d: nat)
    requires env.Ok() && d > 1 && t.Branch? && |t.kids| >= 2 && Sum(KidSizes(env, t.kids)) <= env.PMax()
    requires KidsOk(env, t.kids, d - 1) && i < |t.kids| && InSlot(t.kids, i, es)
    requires Stores(env, g, es, d - 1)
    ensures Stores(env, Carry(env, t, i, g, p), FlatKids(t.kids[..i]) + es + FlatKids(t.kids[i + 1..]), d)
  {
    hide KidsOk, GoodTree, Sum, KidSizes, FlatKids, AddKid;
    match g
    case Same(t') =>
      ReplacedKids(env, t.kids, i, t', d - 1);
      SameSizes(env, t.kids, i, t');
      BranchGood(env, t.pg, t.kids[i := Kid(t.kids[i].sep, t')], d - 1);
      ReplacedFlat(t.kids, i, t');
    case Split(left, sep, right) =>
      SplitKids(env, t.kids, i, left, sep, right, d - 1);
      SameSizes(env, t.kids, i, left);
      SplitFlat(t.kids, i, left, sep, right);
      AddKidStores(env, t.pg, t.kids[i := Kid(t.kids[i].sep, left)], i + 1, sep, right, p, d - 1);
    case Full => FullStores(env, FlatKids(t.kids[..i]) + es + FlatKids(t.kids[i + 1..]), d);
  }

  // ---- Exactly when a page fills up ----------------------------------------------------------

  lemma {:induction false} HalfSums(env: Env, items: seq<Item>, s: nat)
    requires s <= |items|
    ensures ItemSizes(env, items[..s]) == ItemSizes(env, items)[..s] && ItemSizes(env, items[s..]) == ItemSizes(env, items)[s..]
  {
  }

  /**
   Adding a node to a leaf fails exactly when the page has no room for it, the nodes' sizes are
   not looked at, and the two halves around the middle do not both fit.
   */
  lemma {:induction false} LeafIsFullExactly(env: Env, pg: Pgno, items: seq<Item>, i: nat, k: Key, v: Val, p: Pool)
    requires env.Ok() && ItemsOk(env, items) && i <= |items|
    ensures var ns := ItemSizes(env, items[..i] + [NewItem(env, k, v, p).0] + items[i..]);
            AddItem(env, pg, items, i, k, v, p).0 == Full <==>
            SizeLeft(env, Leaf(pg, items)) < LeafSize(env, k, v) &&
            !(Scans(ns, i, env.PMax()) || HalvesFit(ns, Midpoint(ns), env.PMax()))
  {
    hide ItemsOk, ItemOk, Sum, ItemSizes, SplitIndex, Scans, Splittable;
    var it := NewItem(env, k, v, p).0;
    var items' := items[..i] + [it] + items[i..];
    NewItemFits(env, k, v, p);
    if SizeLeft(env, Leaf(pg, items)) < LeafSize(env, k, v) {
      var ns := ItemSizes(env, items');
      LeafSplittable(env, items, i, it);
      EnoughNodes(ns, i, env.PMax());
      SplitFits(ns, i, env.PMax());
      HalfSums(env, items', SplitIndex(ns, i, env.PMax()));
    }
  }

  lemma EnoughNodes(ns: seq<int>, i: nat, pmax: int)
    requires Splittable(ns, i, pmax)
    ensures |ns| >= 3
  {
  }

  /** A branch is split at the middle or where the scan stops; that fails exactly if it is the middle and a half is too large. */
  lemma {:induction false} BranchIsFullExactly(env: Env, pg: Pgno, kids: seq<Kid>, i: nat, sep: Key, sub: Tree, p: Pool, d: nat)
    requires env.Ok() && 0 < i <= |kids| && Sum(KidSizes(env, kids)) <= env.PMax()
    requires Sum(KidSizes(env, kids)) + KidSize(env, Kid(At(sep), sub)) > env.PMax()
    requires KidsOk(env, kids[..i] + [Kid(At(sep), sub)] + kids[i..], d)
    ensures var row := kids[..i] + [Kid(At(sep), sub)] + kids[i..];
            var ns, m := KidSizes(env, row), |row| / 2;
            SplitBranch(env, pg, kids, i, sep, sub, p).0 == Full <==>
            !(Scans(ns, i, env.PMax()) ||
              (Sum(KidSizes(env, row[..m])) <= env.PMax() && Sum(KidSizes(env, RightHalf(row, m))) <= env.PMax()))
  {
    hide Sum, KidSizes, SplitIndex, Scans, GoodTree, Below, AtLeast, Splittable;
    var kid := Kid(At(sep), sub);
    var row := kids[..i] + [kid] + kids[i..];
    var ns := KidSizes(env, row);
    BranchSplittable(env, kids, i, kid);
    BranchSplitPoint(ns, i, env.PMax());
    var s := SplitIndex(ns, i, env.PMax());
    if Scans(ns, i, env.PMax()) {
      ScanFits(ns, i, env.PMax());
      KidHalfSums(env, row, s);
    } else {
      SplitsInTheMiddle(ns, i, env.PMax());
    }
  }

  lemma {:induction false} SplitsInTheMiddle(ns: seq<int>, i: nat, pmax: int)
    requires |ns| >= 3 && i < |ns| && !Scans(ns, i, pmax)
    ensures SplitIndex(ns, i, pmax) == |ns| / 2
  {
  }

  lemma {:induction false} KidHalfSums(env: Env, row: seq<Kid>, s: nat)
    requires 0 < s < |row|
    ensures KidSizes(env, row[..s]) == KidSizes(env, row)[..s]
    ensures Sum(KidSizes(env, RightHalf(row, s))) <= Sum(KidSizes(env, row)[s..])
  {
    var a, b := KidSizes(env, RightHalf(row, s)), KidSizes(env, row)[s..];
    assert a[1..] == b[1..] && a[0] <= b[0];
  }
}
