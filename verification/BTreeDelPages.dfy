/** The pages of a tree are conserved when a binding is deleted. */
module BTreeDelPages {
  import opened BTree
  import opened BTreeSearch
  import opened PagePool
  import opened BTreePut
  import opened BTreePages
  import opened BTreeDel

  /** Touching a page swaps it for another one, or does nothing. */
  lemma {:induction false} TouchConserves(t: Tree, p: Pool)
    ensures var (pg, p') := TouchPage(t.pg, p); Conserves(Shape(t), p, Shape(WithPage(t, pg)), p')
  {
    hide Shape, Run, Take, Held;
    var (pg, p') := TouchPage(t.pg, p);
    WithPageUse(t, pg);
    if t.pg in p.dirty {
      assert WithPage(t, pg) == t;
      ConservesNothing(Shape(t), p);
    } else {
      var p1 := Take(p).1;
      TakeKeeps(p);
      FreeKeeps(p1, t.pg);
      Swapped(Shape(WithPage(t, pg)).pages, Shape(t).pages, pg, t.pg, Held(p1), Held(p) + multiset(Run(p.next, p'.next - p.next)));
    }
  }

  lemma {:induction false} Swapped(b: multiset<Pgno>, a: multiset<Pgno>, x: Pgno, y: Pgno, held: multiset<Pgno>, before: multiset<Pgno>)
    requires b + multiset{y} == a + multiset{x} && multiset{x} + held == before
    ensures b + (held + multiset{y}) == a + before
  {
    assert b + (held + multiset{y}) == (b + multiset{y}) + held;
    assert a + before == (a + multiset{x}) + held;
  }

  /** Which page a tree's top page is does not matter for the rest of the tree. */
  lemma {:induction false} WithPageUse(t: Tree, pg: Pgno)
    ensures var (a, b) := (Shape(t), Shape(WithPage(t, pg)));
            && b.pages + multiset{t.pg} == a.pages + multiset{pg}
            && (b.branch, b.leaf, b.overflow) == (a.branch, a.leaf, a.overflow)
  {
    hide ItemsUse, KidsUse;
    match t
    case Leaf(_, items) => Exchanged(t.pg, pg, ItemsUse(items).pages);
    case Branch(_, kids) => Exchanged(t.pg, pg, KidsUse(kids).pages);
  }

  lemma Exchanged(x: Pgno, y: Pgno, rest: multiset<Pgno>)
    ensures multiset{y} + rest + multiset{x} == multiset{x} + rest + multiset{y}
  {
  }

  lemma {:induction false} LoosenConserves(p: Pool, pg: Pgno)
    ensures Conserves(LeafUse(pg), p, Nothing, Loosen(p, pg).(leaf := Loosen(p, pg).leaf - 1))
    ensures Conserves(BranchUse(pg), p, Nothing, Loosen(p, pg).(branch := Loosen(p, pg).branch - 1))
  {
    assert Run(p.next, 0) == [];
    FreeKeeps(p, pg);
  }

  // ---- Two neighbouring pages ----------------------------------------------------------------

  lemma {:induction false} JoinedUse(a: seq<Kid>, b: seq<Kid>)
    ensures KidsUse(JoinKids(a, b)) == Plus(KidsUse(a), KidsUse(b))
  {
    hide KidsUse;
    KidsUseAppend(a, b);
    KidsUseOfSubs(JoinKids(a, b), a + b);
  }

  /** One page for two: what is left over is the second page itself. */
  lemma {:induction false} RowUse(pg: Pgno, left: Tree, right: Tree)
    requires left.Leaf? <==> right.Leaf?
    ensures left.Leaf? ==>
      Plus(Shape(WithPage(left, pg)), Shape(right)) == Plus(LeafUse(right.pg), Shape(Leaf(pg, left.items + right.items)))
    ensures left.Branch? ==>
      Plus(Shape(WithPage(left, pg)), Shape(right)) == Plus(BranchUse(right.pg), Shape(Branch(pg, JoinKids(left.kids, right.kids))))
  {
    hide KidsUse, ItemsUse, Plus, JoinKids;
    match left
    case Leaf(_, a) =>
      ItemsUseAppend(a, right.items);
      FourUses(LeafUse(pg), ItemsUse(a), LeafUse(right.pg), ItemsUse(right.items));
    case Branch(_, a) =>
      JoinedUse(a, right.kids);
      FourUses(BranchUse(pg), KidsUse(a), BranchUse(right.pg), KidsUse(right.kids));
  }

  lemma {:induction false} MergeConserves(env: Env, left: Tree, right: Tree, p: Pool)
    ensures var e := Merge(env, left, right, p);
            e.Merged? ==> Conserves(Plus(Shape(left), Shape(right)), p, Shape(e.t), e.p)
  {
    hide Conserves, Plus, Shape, Used, JoinKids, TouchPage, Loosen;
    var (pg, p1) := TouchPage(left.pg, p);
    var e := Merge(env, left, right, p);
    if e.Merged? {
      TouchConserves(left, p);
      ConservesBeside(Shape(left), p, Shape(WithPage(left, pg)), p1, Shape(right));
      LoosenConserves(p1, right.pg);
      RowUse(pg, left, right);
      Shrinks(p1, if left.Leaf? then LeafUse(right.pg) else BranchUse(right.pg), e.p, Shape(e.t));
      ConservesTwice(Plus(Shape(left), Shape(right)), p, Plus(Shape(WithPage(left, pg)), Shape(right)), p1, Shape(e.t), e.p);
    }
  }

  /** However the nodes of two pages are divided, the two pages and all that hangs below stay in use. */
  lemma {:induction false} DivideUse(env: Env, lpg: Pgno, left: Tree, rpg: Pgno, right: Tree, s: nat, p: Pool)
    ensures var e := Divide(env, lpg, left, rpg, right, s, p);
            e.Moved? ==>
              (e.p == p && Plus(Shape(e.left), Shape(e.right)) == Plus(Shape(WithPage(left, lpg)), Shape(WithPage(right, rpg))))
  {
    hide Plus, Shape, Used, JoinKids, RightHalf;
    var e := Divide(env, lpg, left, rpg, right, s, p);
    if e.Moved? {
      RowUse(lpg, left, WithPage(right, rpg));
      if left.Leaf? {
        LeafSplitUse(lpg, rpg, left.items + right.items, s);
      } else {
        BranchSplitUse(lpg, rpg, JoinKids(left.kids, right.kids), s);
      }
    }
  }

  lemma {:induction false} BothTouched(left: Tree, right: Tree, p: Pool)
    ensures var (pg, p1) := TouchPage(left.pg, p); var (pg', p2) := TouchPage(right.pg, p1);
            Conserves(Plus(Shape(left), Shape(right)), p, Plus(Shape(WithPage(left, pg)), Shape(WithPage(right, pg'))), p2)
  {
    hide Conserves, Plus, Shape, TouchPage;
    var (pg, p1) := TouchPage(left.pg, p);
    var (pg', p2) := TouchPage(right.pg, p1);
    var (a, b, a', b') := (Shape(left), Shape(right), Shape(WithPage(left, pg)), Shape(WithPage(right, pg')));
    TouchConserves(left, p);
    ConservesBeside(a, p, a', p1, b);
    TouchConserves(right, p1);
    ConservesBeside(b, p1, b', p2, a');
    PlusLaws(a', b, Nothing);
    PlusLaws(a', b', Nothing);
    ConservesTwice(Plus(a, b), p, Plus(a', b), p1, Plus(a', b'), p2);
  }

  lemma {:induction false} MoveConserves(env: Env, left: Tree, right: Tree, p: Pool)
    ensures var e := MoveLeft(env, left, right, p);
            e.Moved? ==> Conserves(Plus(Shape(left), Shape(right)), p, Plus(Shape(e.left), Shape(e.right)), e.p)
    ensures var e := MoveRight(env, left, right, p);
            e.Moved? ==> Conserves(Plus(Shape(left), Shape(right)), p, Plus(Shape(e.left), Shape(e.right)), e.p)
  {
    hide Conserves, Plus, Shape, TouchPage, Divide;
    BothTouched(left, right, p);
    BothTouched(right, left, p);
    PlusLaws(Shape(left), Shape(right), Nothing);
    var (rpg, p1) := TouchPage(right.pg, p);
    var (lpg, p2) := TouchPage(left.pg, p1);
    PlusLaws(Shape(WithPage(left, lpg)), Shape(WithPage(right, rpg)), Nothing);
    DivideUse(env, lpg, left, rpg, right, NumKeys(left) + 1, p2);
    var (lpg', p1') := TouchPage(left.pg, p);
    var (rpg', p2') := TouchPage(right.pg, p1');
    if NumKeys(left) > 0 { DivideUse(env, lpg', left, rpg', right, NumKeys(left) - 1, p2'); }
  }

  // ---- The page above ------------------------------------------------------------------------

  function ShrunkUse(r: Shrunk): Use {
    match r
    case Shrunk(t, _, _) => Shape(t)
    case Swollen(left, _, right, _) => Plus(Shape(left), Shape(right))
    case NoSpace => Nothing
    case Broken => Nothing
  }

  ghost predicate Keeps(u: Use, p: Pool, r: Shrunk) {
    r.Shrunk? || r.Swollen? ==> Conserves(u, p, ShrunkUse(r), r.p)
  }

  /** A branch without two neighbouring children, and with others in their place. */
  lemma {:induction false} PairUse(pg: Pgno, kids: seq<Kid>, m: nat, l: Tree, sep: Sep, r: Tree)
    requires 0 < m < |kids|
    ensures var rest := Shape(Branch(pg, kids[..m - 1] + kids[m + 1..]));
            && Shape(Branch(pg, kids)) == Plus(Plus(Shape(kids[m - 1].sub), Shape(kids[m].sub)), rest)
            && Shape(Branch(pg, kids[..m - 1] + [Kid(kids[m - 1].sep, l)] + kids[m + 1..])) == Plus(Shape(l), rest)
            && Shape(Branch(pg, kids[m - 1 := Kid(kids[m - 1].sep, l)][m := Kid(sep, r)])) == Plus(Plus(Shape(l), Shape(r)), rest)
  {
    hide Shape, Plus;
    var rest := kids[..m - 1] + kids[m + 1..];
    PairIn(pg, rest, m - 1, kids[m - 1], kids[m]);
    PairIn(pg, rest, m - 1, Kid(kids[m - 1].sep, l), Kid(sep, r));
    BranchAdds(pg, rest, m - 1, Kid(kids[m - 1].sep, l));
    assert rest[..m - 1] == kids[..m - 1] && rest[m - 1..] == kids[m + 1..];
    assert kids[..m - 1] + [kids[m - 1], kids[m]] + kids[m + 1..] == kids;
    assert kids[..m - 1] + [Kid(kids[m - 1].sep, l), Kid(sep, r)] + kids[m + 1..] == kids[m - 1 := Kid(kids[m - 1].sep, l)][m := Kid(sep, r)];
  }

  lemma {:induction false} PairIn(pg: Pgno, rest: seq<Kid>, i: nat, a: Kid, b: Kid)
    requires i <= |rest|
    ensures Shape(Branch(pg, rest[..i] + [a, b] + rest[i..])) == Plus(Plus(Shape(a.sub), Shape(b.sub)), Shape(Branch(pg, rest)))
  {
    hide Shape, Plus;
    var one := rest[..i] + [b] + rest[i..];
    BranchAdds(pg, rest, i, b);
    BranchAdds(pg, one, i, a);
    assert one[..i] + [a] + one[i..] == rest[..i] + [a, b] + rest[i..];
    PlusLaws(Shape(a.sub), Shape(b.sub), Shape(Branch(pg, rest)));
  }

  lemma {:induction false} MergeKeeps(env: Env, pg: Pgno, kids: seq<Kid>, m: nat, p: Pool)
    requires 0 < m < |kids|
    ensures var e := Merge(env, kids[m - 1].sub, kids[m].sub, p);
            e.Merged? ==> Conserves(Shape(Branch(pg, kids)), p,
              Shape(Branch(pg, kids[..m - 1] + [Kid(kids[m - 1].sep, e.t)] + kids[m + 1..])), e.p)
  {
    hide Conserves, Plus, Shape, Merge;
    var left, right := kids[m - 1].sub, kids[m].sub;
    var e := Merge(env, left, right, p);
    if e.Merged? {
      MergeConserves(env, left, right, p);
      PairUse(pg, kids, m, e.t, Empty, e.t);
      ConservesBeside(Plus(Shape(left), Shape(right)), p, Shape(e.t), e.p, Shape(Branch(pg, kids[..m - 1] + kids[m + 1..])));
    }
  }

  /** The pair was divided anew: the new separator finds room in the page above, or the page is split. */
  lemma {:induction false} MoveKeeps(env: Env, pg: Pgno, kids: seq<Kid>, m: nat, p: Pool, l: Tree, sep: Key, r: Tree, p1: Pool)
    requires 0 < m < |kids|
    requires Conserves(Plus(Shape(kids[m - 1].sub), Shape(kids[m].sub)), p, Plus(Shape(l), Shape(r)), p1)
    ensures Conserves(Shape(Branch(pg, kids)), p, Shape(Branch(pg, kids[m - 1 := Kid(kids[m - 1].sep, l)][m := Kid(At(sep), r)])), p1)
    ensures var (g, p2) := SplitBranch(env, pg, kids[..m - 1] + [Kid(kids[m - 1].sep, l)] + kids[m + 1..], m, sep, r, p1);
            Keeps(Shape(Branch(pg, kids)), p, Outcome(g, p2))
  {
    hide Conserves, Plus, Shape, SplitBranch;
    var u, pair := Shape(Branch(pg, kids)), Plus(Shape(l), Shape(r));
    var rest := Shape(Branch(pg, kids[..m - 1] + kids[m + 1..]));
    PairUse(pg, kids, m, l, At(sep), r);
    ConservesBeside(Plus(Shape(kids[m - 1].sub), Shape(kids[m].sub)), p, pair, p1, rest);
    var kids1 := kids[..m - 1] + [Kid(kids[m - 1].sep, l)] + kids[m + 1..];
    SplitBranchConserves(env, pg, kids1, m, sep, r, p1);
    PlusLaws(Shape(r), Shape(l), rest);
    PlusLaws(Shape(l), Shape(r), rest);
    var (g, p2) := SplitBranch(env, pg, kids1, m, sep, r, p1);
    if g != Full { ConservesTwice(u, p, Plus(pair, rest), p1, GrownUse(g), p2); }
  }

  lemma {:induction false} RebalanceKeeps(env: Env, pg: Pgno, kids: seq<Kid>, i: nat, p: Pool)
    requires env.PMax() > 0 && i < |kids| && |kids| >= 2
    ensures Keeps(Shape(Branch(pg, kids)), p, Rebalance(env, pg, kids, i, p))
  {
    hide Conserves, Plus, Shape, SplitBranch, Merge, MoveLeft, MoveRight, CanSpare, KeyFits;
    var m := if i == 0 then 1 else i;
    var left, right := kids[m - 1].sub, kids[m].sub;
    MergeKeeps(env, pg, kids, m, p);
    MoveConserves(env, left, right, p);
    var e := if i == 0 then MoveLeft(env, left, right, p) else MoveRight(env, left, right, p);
    if e.Moved? { MoveKeeps(env, pg, kids, m, p, e.left, e.sep, e.right, e.p); }
  }

  lemma {:induction false} AboveKeeps(env: Env, pg: Pgno, kids: seq<Kid>, i: nat, p: Pool, r: Shrunk)
    requires env.PMax() > 0 && i < |kids| && Keeps(Shape(kids[i].sub), p, r)
    ensures Keeps(Shape(Branch(pg, kids)), p, Above(env, pg, kids, i, r))
  {
    hide Conserves, Plus, Shape, AddKid, Rebalance, Underfull;
    var rest := Shape(Branch(pg, kids[..i] + kids[i + 1..]));
    match r
    case Shrunk(sub, lost, p1) =>
      var kids' := kids[i := Kid(kids[i].sep, sub)];
      var u, u' := Shape(Branch(pg, kids)), Shape(Branch(pg, kids'));
      BranchReplaces(pg, kids, i, sub);
      ConservesBeside(Shape(kids[i].sub), p, Shape(sub), p1, rest);
      if |kids| >= 2 {
        RebalanceKeeps(env, pg, kids', i, p1);
        var h := Rebalance(env, pg, kids', i, p1);
        if h.Shrunk? || h.Swollen? { ConservesTwice(u, p, u', p1, ShrunkUse(h), h.p); }
      }
    case Swollen(left, sep, right, p1) =>
      BranchPutConserves(env, pg, kids, i, p, Split(left, sep, right), p1);
    case _ =>
  }

  lemma {:induction false} DelLeafKeeps(env: Env, t: Tree, k: Key, p: Pool)
    requires env.PMax() > 0 && t.Leaf?
    ensures Keeps(Shape(t), p, Del(env, t, k, p))
  {
    hide Conserves, Plus, Shape, FreeRun;
    var i := Position(t.items, k);
    if i < |t.items| {
      var it, u' := t.items[i], Shape(Leaf(t.pg, t.items[..i] + t.items[i + 1..]));
      RemoveItemUse(t.pg, t.items, i);
      match it.store
      case Overflow(pg, n) =>
        FreeRunConserves(p, pg, n);
        Shrinks(p, ItemUse(it), FreeRun(p, pg, n), u');
      case Inline =>
        ConservesNothing(Shape(t), p);
        PlusLaws(u', Nothing, Nothing);
        PlusLaws(Nothing, u', Nothing);
    }
  }

  /** Deleting a binding loses no page, doubles none, and keeps the page counters right. */
  lemma {:induction false} DelConserves(env: Env, t: Tree, k: Key, p: Pool)
    requires env.PMax() > 0 && Searchable(t)
    ensures Keeps(Shape(t), p, Del(env, t, k, p))
    decreases t
  {
    match t
    case Leaf(_, _) => DelLeafKeeps(env, t, k, p);
    case Branch(pg, kids) =>
      hide Keeps, Above, Shape;
      var i := ChildAt(kids, k);
      var kid := kids[i];
      assert kid.sub < kid;
      DelConserves(env, kid.sub, k, p);
      AboveKeeps(env, pg, kids, i, p, Del(env, kid.sub, k, p));
  }
}
