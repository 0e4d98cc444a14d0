/** The pages a tree uses, and their conservation when a binding is stored. */
module BTreePages {
  import opened BTree
  import opened BTreeSearch
  import opened PagePool
  import opened BTreePut

  function ItemUse(it: Item): Use {
    match it.store case Inline => Nothing case Overflow(pg, n) => RunUse(pg, n)
  }

  function ItemsUse(items: seq<Item>): Use {
    if items == [] then Nothing else Plus(ItemUse(items[0]), ItemsUse(items[1..]))
  }

  /** Every page of a tree: branches, leaves and the overflow runs of its items. */
  function Shape(t: Tree): Use
    decreases t, 1
  {
    match t
    case Leaf(pg, items) => Plus(LeafUse(pg), ItemsUse(items))
    case Branch(pg, kids) => Plus(BranchUse(pg), KidsUse(kids))
  }

  function KidsUse(kids: seq<Kid>): Use
    decreases kids, 0
  {
    if kids == [] then Nothing
    else
      var kid := kids[0];
      assert kid.sub < kid;
      Plus(Shape(kid.sub), KidsUse(kids[1..]))
  }

  lemma {:induction false} PlusLaws(a: Use, b: Use, c: Use)
    ensures Plus(a, b) == Plus(b, a) && Plus(Plus(a, b), c) == Plus(a, Plus(b, c)) && Plus(a, Nothing) == a
  {
    assert a.pages + multiset{} == a.pages;
  }

  lemma {:induction false} ItemsUseAppend(a: seq<Item>, b: seq<Item>)
    ensures ItemsUse(a + b) == Plus(ItemsUse(a), ItemsUse(b))
  {
    if a == [] {
      assert a + b == b;
      PlusLaws(ItemsUse(b), Nothing, Nothing);
    } else {
      assert (a + b)[0] == a[0] && (a + b)[1..] == a[1..] + b;
      ItemsUseAppend(a[1..], b);
      PlusLaws(ItemUse(a[0]), ItemsUse(a[1..]), ItemsUse(b));
    }
  }

  lemma {:induction false} ItemsUseSplit(items: seq<Item>, i: nat)
    requires i < |items|
    ensures ItemsUse(items) == Plus(ItemUse(items[i]), ItemsUse(items[..i] + items[i + 1..]))
  {
    var a, x, c := items[..i], items[i], items[i + 1..];
    assert items == a + ([x] + c) && [x][1..] == [];
    ItemsUseAppend(a, [x] + c);
    ItemsUseAppend([x], c);
    ItemsUseAppend(a, c);
    assert ItemsUse([x]) == Plus(ItemUse(x), Nothing);
    hide ItemsUse, ItemUse, Plus;
    var ua, ux, uc := ItemsUse(a), ItemUse(x), ItemsUse(c);
    PlusLaws(ux, Nothing, Nothing);
    PlusLaws(ua, ux, uc);
    PlusLaws(ux, ua, uc);
  }

  lemma {:induction false} KidsUseAppend(a: seq<Kid>, b: seq<Kid>)
    ensures KidsUse(a + b) == Plus(KidsUse(a), KidsUse(b))
  {
    if a == [] {
      assert a + b == b;
      PlusLaws(KidsUse(b), Nothing, Nothing);
    } else {
      assert (a + b)[0] == a[0] && (a + b)[1..] == a[1..] + b;
      KidsUseAppend(a[1..], b);
      PlusLaws(Shape(a[0].sub), KidsUse(a[1..]), KidsUse(b));
    }
  }

  lemma {:induction false} KidsUseSplit(kids: seq<Kid>, i: nat)
    requires i < |kids|
    ensures KidsUse(kids) == Plus(Shape(kids[i].sub), KidsUse(kids[..i] + kids[i + 1..]))
  {
    var a, x, c := kids[..i], kids[i], kids[i + 1..];
    assert kids == a + ([x] + c) && [x][1..] == [];
    KidsUseAppend(a, [x] + c);
    KidsUseAppend([x], c);
    KidsUseAppend(a, c);
    assert KidsUse([x]) == Plus(Shape(x.sub), Nothing);
    hide KidsUse, Shape, Plus;
    var ua, ux, uc := KidsUse(a), Shape(x.sub), KidsUse(c);
    PlusLaws(ux, Nothing, Nothing);
    PlusLaws(ua, ux, uc);
    PlusLaws(ux, ua, uc);
  }

  /** The key a child is filed under does not matter for the pages below it. */
  lemma {:induction false} KidsUseOfSubs(a: seq<Kid>, b: seq<Kid>)
    requires |a| == |b| && forall i :: 0 <= i < |a| ==> a[i].sub == b[i].sub
    ensures KidsUse(a) == KidsUse(b)
  {
    if a != [] { KidsUseOfSubs(a[1..], b[1..]); }
  }

  // ---- Storing a binding ---------------------------------------------------------------------

  function GrownUse(g: Grown): Use {
    match g
    case Same(t) => Shape(t)
    case Split(l, _, r) => Plus(Shape(l), Shape(r))
    case Full => Nothing
  }

  lemma {:induction false} NewItemConserves(env: Env, k: Key, v: Val, p: Pool)
    requires env.psize > 0
    ensures var (it, p') := NewItem(env, k, v, p); Conserves(Nothing, p, ItemUse(it), p')
  {
    hide NewRun, Held, Run;
    if NODE_HEADER + env.ksize(k) + v.size > env.NodeMax() {
      NewRunConserves(p, OverflowPages(env, v.size));
    } else {
      ConservesNothing(Nothing, p);
    }
  }

  /** Pages that are taken for something new beside what was there. */
  lemma {:induction false} Grows(p: Pool, u: Use, p': Pool, base: Use)
    requires Conserves(Nothing, p, u, p')
    ensures Conserves(base, p, Plus(u, base), p')
  {
    hide Conserves;
    ConservesBeside(Nothing, p, u, p', base);
    PlusLaws(Nothing, base, Nothing);
    PlusLaws(base, Nothing, Nothing);
  }

  /** Pages that are given up beside what stays. */
  lemma {:induction false} Shrinks(p: Pool, u: Use, p': Pool, base: Use)
    requires Conserves(u, p, Nothing, p')
    ensures Conserves(Plus(u, base), p, base, p')
  {
    hide Conserves;
    ConservesBeside(u, p, Nothing, p', base);
    PlusLaws(Nothing, base, Nothing);
    PlusLaws(base, Nothing, Nothing);
  }

  lemma {:induction false} LeafAdds(pg: Pgno, items: seq<Item>, i: nat, it: Item)
    requires i <= |items|
    ensures Shape(Leaf(pg, items[..i] + [it] + items[i..])) == Plus(ItemUse(it), Shape(Leaf(pg, items)))
  {
    var items' := items[..i] + [it] + items[i..];
    ItemsUseSplit(items', i);
    assert items'[..i] + items'[i + 1..] == items;
    PlusLaws(LeafUse(pg), ItemUse(it), ItemsUse(items));
    PlusLaws(ItemUse(it), LeafUse(pg), ItemsUse(items));
  }

  lemma {:induction false} FourUses(l: Use, a: Use, r: Use, b: Use)
    ensures Plus(Plus(l, a), Plus(r, b)) == Plus(r, Plus(l, Plus(a, b)))
  {
    assert (l.pages + a.pages) + (r.pages + b.pages) == r.pages + (l.pages + (a.pages + b.pages));
  }

  lemma {:induction false} LeafSplitUse(pg: Pgno, rp: Pgno, items: seq<Item>, s: nat)
    requires s <= |items|
    ensures Plus(Shape(Leaf(pg, items[..s])), Shape(Leaf(rp, items[s..]))) == Plus(LeafUse(rp), Shape(Leaf(pg, items)))
  {
    assert items == items[..s] + items[s..];
    ItemsUseAppend(items[..s], items[s..]);
    FourUses(LeafUse(pg), ItemsUse(items[..s]), LeafUse(rp), ItemsUse(items[s..]));
  }

  lemma {:induction false} AddItemConserves(env: Env, pg: Pgno, items: seq<Item>, i: nat, k: Key, v: Val, p: Pool)
    requires i <= |items| && env.psize > 0
    ensures var (g, p') := AddItem(env, pg, items, i, k, v, p);
            g != Full ==> Conserves(Shape(Leaf(pg, items)), p, GrownUse(g), p')
  {
    var (it, p1) := NewItem(env, k, v, p);
    var items' := items[..i] + [it] + items[i..];
    var before, after := Shape(Leaf(pg, items)), Shape(Leaf(pg, items'));
    var (rp, p2) := NewLeaf(p1);
    var (g, p') := AddItem(env, pg, items, i, k, v, p);
    assert g.Same? ==> g == Same(Leaf(pg, items')) && p' == p1;
    assert g.Split? ==> exists s :: 0 < s < |items'| && g == Split(Leaf(pg, items'[..s]), items'[s].key, Leaf(rp, items'[s..])) && p' == p2 by {
      if g.Split? { assert g.left == Leaf(pg, items'[..|g.left.items|]); }
    }
    NewItemConserves(env, k, v, p);
    Grows(p, ItemUse(it), p1, before);
    LeafAdds(pg, items, i, it);
    NewPageConserves(p1);
    Grows(p1, LeafUse(rp), p2, after);
    ConservesTwice(before, p, after, p1, Plus(LeafUse(rp), after), p2);
    hide Conserves, AddItem, Plus, Shape, NewItem;
    if g.Split? {
      var s :| 0 < s < |items'| && g == Split(Leaf(pg, items'[..s]), items'[s].key, Leaf(rp, items'[s..])) && p' == p2;
      LeafSplitUse(pg, rp, items', s);
    }
  }

  lemma {:induction false} RemoveItemUse(pg: Pgno, items: seq<Item>, i: nat)
    requires i < |items|
    ensures Shape(Leaf(pg, items)) == Plus(ItemUse(items[i]), Shape(Leaf(pg, items[..i] + items[i + 1..])))
  {
    var rest := items[..i] + items[i + 1..];
    LeafAdds(pg, rest, i, items[i]);
    assert rest[..i] + [items[i]] + rest[i..] == items;
  }

  lemma {:induction false} OverwriteUse(pg: Pgno, items: seq<Item>, i: nat, v: Val)
    requires i < |items|
    ensures Shape(Leaf(pg, items[i := items[i].(val := v)])) == Shape(Leaf(pg, items))
  {
    var items' := items[i := items[i].(val := v)];
    ItemsUseSplit(items, i);
    ItemsUseSplit(items', i);
    assert items'[..i] + items'[i + 1..] == items[..i] + items[i + 1..];
  }

  lemma {:induction false} PutLeafConserves(env: Env, pg: Pgno, items: seq<Item>, k: Key, v: Val, p: Pool)
    requires env.psize > 0
    ensures var (g, p') := PutLeaf(env, pg, items, k, v, p);
            g != Full ==> Conserves(Shape(Leaf(pg, items)), p, GrownUse(g), p')
  {
    hide Conserves, AddItem, Plus, Shape, FreeRun;
    var i := Position(items, k);
    if i < |items| && items[i].key == k {
      var it, rest := items[i], items[..i] + items[i + 1..];
      var u, u' := Shape(Leaf(pg, items)), Shape(Leaf(pg, rest));
      RemoveItemUse(pg, items, i);
      OverwriteUse(pg, items, i, v);
      ConservesNothing(u, p);
      AddItemConserves(env, pg, rest, i, k, v, p);
      PlusLaws(u', Nothing, Nothing);
      PlusLaws(Nothing, u', Nothing);
      if it.store.Overflow? {
        var p1 := FreeRun(p, it.store.pg, it.store.n);
        FreeRunConserves(p, it.store.pg, it.store.n);
        Shrinks(p, ItemUse(it), p1, u');
        AddItemConserves(env, pg, rest, i, k, v, p1);
        var (g, p2) := AddItem(env, pg, rest, i, k, v, p1);
        if g != Full { ConservesTwice(u, p, u', p1, GrownUse(g), p2); }
      }
    } else {
      AddItemConserves(env, pg, items, i, k, v, p);
    }
  }

  lemma {:induction false} BranchAdds(pg: Pgno, kids: seq<Kid>, i: nat, kid: Kid)
    requires i <= |kids|
    ensures Shape(Branch(pg, kids[..i] + [kid] + kids[i..])) == Plus(Shape(kid.sub), Shape(Branch(pg, kids)))
  {
    var kids' := kids[..i] + [kid] + kids[i..];
    KidsUseSplit(kids', i);
    assert kids'[..i] + kids'[i + 1..] == kids;
    PlusLaws(BranchUse(pg), Shape(kid.sub), KidsUse(kids));
    PlusLaws(Shape(kid.sub), BranchUse(pg), KidsUse(kids));
  }

  /** A branch without one of its children, and with another in its place. */
  lemma {:induction false} BranchReplaces(pg: Pgno, kids: seq<Kid>, i: nat, sub: Tree)
    requires i < |kids|
    ensures var rest := Shape(Branch(pg, kids[..i] + kids[i + 1..]));
            && Shape(Branch(pg, kids)) == Plus(Shape(kids[i].sub), rest)
            && Shape(Branch(pg, kids[i := Kid(kids[i].sep, sub)])) == Plus(Shape(sub), rest)
  {
    var rest := kids[..i] + kids[i + 1..];
    BranchAdds(pg, rest, i, kids[i]);
    assert rest[..i] + [kids[i]] + rest[i..] == kids;
    BranchAdds(pg, rest, i, Kid(kids[i].sep, sub));
    assert rest[..i] + [Kid(kids[i].sep, sub)] + rest[i..] == kids[i := Kid(kids[i].sep, sub)];
  }

  lemma {:induction false} BranchSplitUse(pg: Pgno, rp: Pgno, kids: seq<Kid>, s: nat)
    requires s < |kids|
    ensures Plus(Shape(Branch(pg, kids[..s])), Shape(Branch(rp, RightHalf(kids, s)))) ==
            Plus(BranchUse(rp), Shape(Branch(pg, kids)))
  {
    assert kids == kids[..s] + kids[s..];
    KidsUseAppend(kids[..s], kids[s..]);
    KidsUseOfSubs(RightHalf(kids, s), kids[s..]);
    FourUses(BranchUse(pg), KidsUse(kids[..s]), BranchUse(rp), KidsUse(kids[s..]));
  }

  lemma {:induction false} AddKidConserves(env: Env, pg: Pgno, kids: seq<Kid>, i: nat, sep: Key, sub: Tree, p: Pool)
    requires 0 < i <= |kids|
    ensures var (g, p') := AddKid(env, pg, kids, i, sep, sub, p);
            g != Full ==> Conserves(Plus(Shape(sub), Shape(Branch(pg, kids))), p, GrownUse(g), p')
  {
    hide Conserves, SplitBranch, Plus, Shape;
    var kids' := kids[..i] + [Kid(At(sep), sub)] + kids[i..];
    SplitBranchConserves(env, pg, kids, i, sep, sub, p);
    BranchAdds(pg, kids, i, Kid(At(sep), sub));
    ConservesNothing(Shape(Branch(pg, kids')), p);
  }

  lemma {:induction false} SplitBranchConserves(env: Env, pg: Pgno, kids: seq<Kid>, i: nat, sep: Key, sub: Tree, p: Pool)
    requires 0 < i <= |kids|
    ensures var (g, p') := SplitBranch(env, pg, kids, i, sep, sub, p);
            g != Full ==> Conserves(Plus(Shape(sub), Shape(Branch(pg, kids))), p, GrownUse(g), p')
  {
    var kids' := kids[..i] + [Kid(At(sep), sub)] + kids[i..];
    var u := Shape(Branch(pg, kids'));
    var (rp, p1) := NewBranch(p);
    var (g, p') := SplitBranch(env, pg, kids, i, sep, sub, p);
    assert !g.Same?;
    assert g.Split? ==> exists s :: 0 < s < |kids'| && g.left == Branch(pg, kids'[..s]) && g.right == Branch(rp, RightHalf(kids', s)) && p' == p1 by {
      if g.Split? { assert g.left == Branch(pg, kids'[..|g.left.kids|]); }
    }
    BranchAdds(pg, kids, i, Kid(At(sep), sub));
    NewPageConserves(p);
    Grows(p, BranchUse(rp), p1, u);
    hide Conserves, SplitBranch, Plus, Shape;
    if g.Split? {
      var s :| 0 < s < |kids'| && g.left == Branch(pg, kids'[..s]) && g.right == Branch(rp, RightHalf(kids', s)) && p' == p1;
      BranchSplitUse(pg, rp, kids', s);
    }
  }

  /** Storing a binding loses no page, doubles none, and keeps the page counters right. */
  lemma {:induction false} PutConserves(env: Env, t: Tree, k: Key, v: Val, p: Pool)
    requires env.psize > 0 && Searchable(t)
    ensures var (g, p') := Put(env, t, k, v, p); g != Full ==> Conserves(Shape(t), p, GrownUse(g), p')
    decreases t
  {
    match t
    case Leaf(pg, items) => PutLeafConserves(env, pg, items, k, v, p);
    case Branch(pg, kids) =>
      var i := ChildAt(kids, k);
      var kid := kids[i];
      assert kid.sub < kid;
      var (g, p1) := Put(env, kid.sub, k, v, p);
      PutConserves(env, kid.sub, k, v, p);
      if g != Full { BranchPutConserves(env, pg, kids, i, p, g, p1); }
  }

  lemma {:induction false} BranchPutConserves(env: Env, pg: Pgno, kids: seq<Kid>, i: nat, p: Pool, g: Grown, p1: Pool)
    requires i < |kids| && g != Full && Conserves(Shape(kids[i].sub), p, GrownUse(g), p1)
    ensures g.Same? ==> Conserves(Shape(Branch(pg, kids)), p, Shape(Branch(pg, kids[i := Kid(kids[i].sep, g.t)])), p1)
    ensures g.Split? ==>
      var (h, p2) := AddKid(env, pg, kids[i := Kid(kids[i].sep, g.left)], i + 1, g.sep, g.right, p1);
      h != Full ==> Conserves(Shape(Branch(pg, kids)), p, GrownUse(h), p2)
  {
    hide Conserves, AddKid, Plus, Shape;
    var rest := Shape(Branch(pg, kids[..i] + kids[i + 1..]));
    ConservesBeside(Shape(kids[i].sub), p, GrownUse(g), p1, rest);
    match g
    case Same(t') => BranchReplaces(pg, kids, i, t');
    case Split(left, sep, right) =>
      var kids1 := kids[i := Kid(kids[i].sep, left)];
      BranchReplaces(pg, kids, i, left);
      AddKidConserves(env, pg, kids1, i + 1, sep, right, p1);
      PlusLaws(Shape(right), Shape(left), rest);
      PlusLaws(Shape(left), Shape(right), rest);
      var (h, p2) := AddKid(env, pg, kids1, i + 1, sep, right, p1);
      if h != Full {
        ConservesTwice(Shape(Branch(pg, kids)), p, Plus(GrownUse(g), rest), p1, GrownUse(h), p2);
      }
  }
}
