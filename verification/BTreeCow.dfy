/**
 Copy-on-write: storing and deleting never change a committed page.

 `C` stands for any set of pages that readers or the last commit may still need. The pool hands
 out none of them; then every page of the new tree that lies in C is a page of the tree the
 transaction began with, with the same nodes and everything below it unchanged.
 */
module BTreeCow {
  import opened BTree
  import opened BTreeSearch
  import opened PagePool
  import opened SplitPoint
  import opened BTreePut
  import opened BTreeDel
  import opened BTreeTable

  ghost predicate Within(s: Tree, t: Tree)
    decreases t
  {
    s == t || (t.Branch? && exists i :: 0 <= i < |t.kids| && (assert t.kids[i].sub < t.kids[i]; Within(s, t.kids[i].sub)))
  }

  /** A run of overflow pages is needed as a whole or not at all. */
  ghost predicate RunWhole(it: Item, C: set<Pgno>) {
    it.store.Overflow? ==> AllIn(Run(it.store.pg, it.store.n), C) || NoneIn(Run(it.store.pg, it.store.n), C)
  }

  ghost predicate AllIn(s: seq<Pgno>, C: set<Pgno>) {
    forall i :: 0 <= i < |s| ==> s[i] in C
  }

  ghost predicate NoneIn(s: seq<Pgno>, C: set<Pgno>) {
    forall i :: 0 <= i < |s| ==> s[i] !in C
  }

  /** Every page of `t` that is in C is a page of `base`, and so is all below it. */
  ghost predicate Cow(t: Tree, base: Tree, C: set<Pgno>)
    decreases t
  {
    && (t.pg in C ==> Within(t, base))
    && match t
       case Leaf(_, items) => forall i :: 0 <= i < |items| ==> RunWhole(items[i], C)
       case Branch(_, kids) => forall i :: 0 <= i < |kids| ==> var kid := kids[i]; assert kid.sub < kid; Cow(kid.sub, base, C)
  }

  /** The transaction's own pages and those it may be given are not in C. */
  ghost predicate Apart(p: Pool, C: set<Pgno>) {
    && p.dirty !! C
    && NoneIn(p.ready, C) && NoneIn(p.loose, C)
    && (forall c :: c in C ==> c < p.next)
  }

  // ---- The pool ------------------------------------------------------------------------------

  lemma {:induction false} TakeApart(p: Pool, C: set<Pgno>)
    requires Apart(p, C)
    ensures Take(p).0 !in C && Apart(Take(p).1, C)
    ensures NewLeaf(p).0 !in C && Apart(NewLeaf(p).1, C) && NewBranch(p).0 !in C && Apart(NewBranch(p).1, C)
  {
  }

  lemma {:induction false} TakeManyApart(p: Pool, n: nat, C: set<Pgno>)
    requires Apart(p, C) && n > 0
    ensures var (pg, p') := NewRun(p, n); Apart(p', C) && NoneIn(Run(pg, n), C)
  {
    if n == 1 {
      TakeApart(p, C);
    } else if n <= |p.ready| && p.ready[..n] == Run(p.ready[0], n) {
      assert forall x :: 0 <= x < n ==> Run(p.ready[0], n)[x] == p.ready[x];
    }
  }

  lemma {:induction false} FreeRunApart(p: Pool, it: Item, C: set<Pgno>)
    requires Apart(p, C) && RunWhole(it, C) && it.store.Overflow?
    ensures Apart(FreeRun(p, it.store.pg, it.store.n), C)
  {
    var pg, n := it.store.pg, it.store.n;
    if p.hasHead && pg in p.dirty && n > 0 {
      assert Run(pg, n)[0] == pg;
      assert NoneIn(Run(pg, n), C);
    }
  }

  lemma {:induction false} TouchApart(pg: Pgno, p: Pool, C: set<Pgno>)
    requires Apart(p, C)
    ensures TouchPage(pg, p).0 !in C && Apart(TouchPage(pg, p).1, C)
  {
    TakeApart(p, C);
  }

  lemma {:induction false} LoosenApart(pg: Pgno, p: Pool, C: set<Pgno>)
    requires Apart(p, C)
    ensures Apart(Loosen(p, pg), C) && Apart(Free(p, pg), C)
  {
  }

  // ---- Trees ---------------------------------------------------------------------------------

  lemma {:induction false} WithinKid(s: Tree, t: Tree, i: nat)
    requires t.Branch? && i < |t.kids| && Within(t, s)
    ensures Within(t.kids[i].sub, s)
    decreases s
  {
    if t == s {
      var kid := t.kids[i];
      assert kid.sub < kid && Within(kid.sub, kid.sub);
    } else {
      var j :| 0 <= j < |s.kids| && Within(t, s.kids[j].sub);
      var kid := s.kids[j];
      assert kid.sub < kid;
      WithinKid(kid.sub, t, i);
    }
  }

  /** Whole runs all over a tree. */
  ghost predicate RunsWhole(t: Tree, C: set<Pgno>)
    decreases t
  {
    match t
    case Leaf(_, items) => forall i :: 0 <= i < |items| ==> RunWhole(items[i], C)
    case Branch(_, kids) => forall i :: 0 <= i < |kids| ==> var kid := kids[i]; assert kid.sub < kid; RunsWhole(kid.sub, C)
  }

  /** A tree is unchanged from itself. */
  lemma {:induction false} CowSelf(t: Tree, base: Tree, C: set<Pgno>)
    requires Within(t, base) && RunsWhole(t, C)
    ensures Cow(t, base, C)
    decreases t
  {
    if t.Branch? {
      forall i | 0 <= i < |t.kids| ensures Cow(t.kids[i].sub, base, C) {
        var kid := t.kids[i];
        assert kid.sub < kid;
        WithinKid(base, t, i);
        CowSelf(kid.sub, base, C);
      }
    }
  }

  /** A branch outside C with unchanged children. */
  lemma CowBranch(pg: Pgno, kids: seq<Kid>, base: Tree, C: set<Pgno>)
    requires pg !in C && forall i :: 0 <= i < |kids| ==> Cow(kids[i].sub, base, C)
    ensures Cow(Branch(pg, kids), base, C)
  {
  }

  lemma CowKids(t: Tree, base: Tree, C: set<Pgno>)
    requires t.Branch? && Cow(t, base, C)
    ensures forall i :: 0 <= i < |t.kids| ==> Cow(t.kids[i].sub, base, C)
  {
    forall i | 0 <= i < |t.kids| ensures Cow(t.kids[i].sub, base, C) {
      var kid := t.kids[i];
      assert kid.sub < kid;
    }
  }

  /** The pages on the way to a key are not in C: they may be changed. */
  ghost predicate PathFree(t: Tree, k: Key, C: set<Pgno>)
    requires Searchable(t)
    decreases t
  {
    t.pg !in C && (t.Branch? ==> var kid := t.kids[ChildAt(t.kids, k)]; assert kid.sub < kid; PathFree(kid.sub, k, C))
  }

  /** mdb_cursor_touch makes the way to a key free, and keeps the rest. */
  lemma {:induction false} TouchPathCow(t: Tree, k: Key, p: Pool, base: Tree, C: set<Pgno>)
    requires Searchable(t) && Cow(t, base, C) && Apart(p, C)
    ensures var (t', p') := TouchPath(t, k, p);
            Searchable(t') && Cow(t', base, C) && PathFree(t', k, C) && Apart(p', C)
    decreases t
  {
    TouchPathSearchable(t, k, p);
    TouchApart(t.pg, p, C);
    if t.Branch? {
      hide Apart, Within, TouchPage;
      var (pg, p1) := TouchPage(t.pg, p);
      var i := ChildAt(t.kids, k);
      var kid := t.kids[i];
      assert kid.sub < kid;
      CowKids(t, base, C);
      TouchPathCow(kid.sub, k, p1, base, C);
      var sub := TouchPath(kid.sub, k, p1).0;
      var kids' := t.kids[i := Kid(kid.sep, sub)];
      CowBranch(pg, kids', base, C);
      SameChild(t.kids, i, sub, k);
    }
  }

  lemma {:induction false} SameChild(kids: seq<Kid>, i: nat, sub: Tree, k: Key)
    requires |kids| > 0 && (forall j :: 0 < j < |kids| ==> kids[j].sep.At?) && i == ChildAt(kids, k)
    ensures ChildAt(kids[i := Kid(kids[i].sep, sub)], k) == i
  {
    ChildAtIs(kids[i := Kid(kids[i].sep, sub)], k, i);
  }

  // ---- Storing -------------------------------------------------------------------------------

  ghost predicate GrownCow(g: Grown, base: Tree, C: set<Pgno>) {
    match g
    case Same(t) => Cow(t, base, C)
    case Split(l, _, r) => Cow(l, base, C) && Cow(r, base, C)
    case Full => true
  }

  ghost predicate ItemsWhole(items: seq<Item>, C: set<Pgno>) {
    forall i :: 0 <= i < |items| ==> RunWhole(items[i], C)
  }

  lemma {:induction false} AddItemCow(env: Env, pg: Pgno, items: seq<Item>, i: nat, k: Key, v: Val, p: Pool, base: Tree, C: set<Pgno>)
    requires i <= |items| && env.psize > 0 && pg !in C && ItemsWhole(items, C) && Apart(p, C)
    ensures var (g, p') := AddItem(env, pg, items, i, k, v, p); GrownCow(g, base, C) && Apart(p', C)
  {
    hide Apart, RunWhole, Used, SizeLeft, LeafSize, SplitIndex, Take;
    var (it, p1) := NewItem(env, k, v, p);
    NewItemCow(env, k, v, p, C);
    TakeApart(p1, C);
    var items' := items[..i] + [it] + items[i..];
    assert ItemsWhole(items', C);
  }

  lemma {:induction false} NewItemCow(env: Env, k: Key, v: Val, p: Pool, C: set<Pgno>)
    requires env.psize > 0 && Apart(p, C)
    ensures RunWhole(NewItem(env, k, v, p).0, C) && Apart(NewItem(env, k, v, p).1, C)
  {
    hide Apart, NewRun;
    if NODE_HEADER + env.ksize(k) + v.size > env.NodeMax() {
      TakeManyApart(p, OverflowPages(env, v.size), C);
    }
  }

  lemma {:induction false} PutLeafCow(env: Env, pg: Pgno, items: seq<Item>, k: Key, v: Val, p: Pool, base: Tree, C: set<Pgno>)
    requires env.psize > 0 && pg !in C && ItemsWhole(items, C) && Apart(p, C)
    ensures var (g, p') := PutLeaf(env, pg, items, k, v, p); GrownCow(g, base, C) && Apart(p', C)
  {
    hide Apart, AddItem, FreeRun, Position;
    var i := Position(items, k);
    if i < |items| && items[i].key == k {
      var rest := items[..i] + items[i + 1..];
      assert ItemsWhole(rest, C);
      assert RunWhole(items[i].(val := v), C);
      assert ItemsWhole(items[i := items[i].(val := v)], C);
      AddItemCow(env, pg, rest, i, k, v, p, base, C);
      if items[i].store.Overflow? {
        FreeRunApart(p, items[i], C);
        AddItemCow(env, pg, rest, i, k, v, FreeRun(p, items[i].store.pg, items[i].store.n), base, C);
      }
    } else {
      AddItemCow(env, pg, items, i, k, v, p, base, C);
    }
  }

  lemma {:induction false} SplitBranchCow(env: Env, pg: Pgno, kids: seq<Kid>, i: nat, sep: Key, sub: Tree, p: Pool, base: Tree, C: set<Pgno>)
    requires 0 < i <= |kids| && pg !in C && Apart(p, C) && Cow(sub, base, C)
    requires forall j :: 0 <= j < |kids| ==> Cow(kids[j].sub, base, C)
    ensures var (g, p') := SplitBranch(env, pg, kids, i, sep, sub, p); GrownCow(g, base, C) && Apart(p', C)
    ensures var (g, p') := AddKid(env, pg, kids, i, sep, sub, p); GrownCow(g, base, C) && Apart(p', C)
  {
    hide Apart, Cow, Used, SizeLeft, SplitIndex, Take;
    TakeApart(p, C);
    var row := kids[..i] + [Kid(At(sep), sub)] + kids[i..];
    assert forall j :: 0 <= j < |row| ==> Cow(row[j].sub, base, C);
    CowBranch(pg, row, base, C);
    var rp := NewBranch(p).0;
    var s := SplitIndexOr(env, row, i);
    if 0 < s < |row| {
      CowBranch(pg, row[..s], base, C);
      CowBranch(rp, RightHalf(row, s), base, C);
    }
  }

  function SplitIndexOr(env: Env, row: seq<Kid>, i: nat): nat
    requires i < |row|
  {
    if |row| < 3 then 0 else SplitIndex(KidSizes(env, row), i, env.PMax())
  }

  /** Storing a binding below a page changes no page in C. */
  lemma {:induction false} PutCow(env: Env, t: Tree, k: Key, v: Val, p: Pool, base: Tree, C: set<Pgno>)
    requires env.psize > 0 && Searchable(t) && Cow(t, base, C) && PathFree(t, k, C) && Apart(p, C)
    ensures var (g, p') := Put(env, t, k, v, p); GrownCow(g, base, C) && Apart(p', C)
    decreases t
  {
    match t
    case Leaf(pg, items) => PutLeafCow(env, pg, items, k, v, p, base, C);
    case Branch(pg, kids) =>
      hide Apart, Within, AddKid;
      var i := ChildAt(kids, k);
      var kid := kids[i];
      assert kid.sub < kid;
      CowKids(t, base, C);
      PutCow(env, kid.sub, k, v, p, base, C);
      var (g, p1) := Put(env, kid.sub, k, v, p);
      match g
      case Same(t') => CowBranch(pg, kids[i := Kid(kid.sep, t')], base, C);
      case Split(l, sep, r) => SplitBranchCow(env, pg, kids[i := Kid(kid.sep, l)], i + 1, sep, r, p1, base, C);
      case Full =>
  }

  // ---- Deleting ------------------------------------------------------------------------------

  ghost predicate EvenedCow(e: Evened, base: Tree, C: set<Pgno>) {
    match e
    case Merged(t, p) => Cow(t, base, C) && Apart(p, C)
    case Moved(l, _, r, p) => Cow(l, base, C) && Cow(r, base, C) && Apart(p, C)
    case PageFull => true
  }

  ghost predicate ShrunkCow(r: Shrunk, base: Tree, C: set<Pgno>) {
    match r
    case Shrunk(t, _, p) => Cow(t, base, C) && t.pg !in C && Apart(p, C)
    case Swollen(l, _, r', p) => Cow(l, base, C) && Cow(r', base, C) && Apart(p, C)
    case NoSpace => true
    case Broken => true
  }

  lemma {:induction false} JoinedCow(a: seq<Kid>, b: seq<Kid>, base: Tree, C: set<Pgno>)
    requires forall i :: 0 <= i < |a| ==> Cow(a[i].sub, base, C)
    requires forall i :: 0 <= i < |b| ==> Cow(b[i].sub, base, C)
    ensures forall i :: 0 <= i < |JoinKids(a, b)| ==> Cow(JoinKids(a, b)[i].sub, base, C)
  {
    hide Cow, Lowest;
    var row := JoinKids(a, b);
    forall i | 0 <= i < |row| ensures Cow(row[i].sub, base, C) {
      assert row[i].sub == if i < |a| then a[i].sub else b[i - |a|].sub;
    }
  }

  lemma LeafCow(pg: Pgno, items: seq<Item>, base: Tree, C: set<Pgno>)
    requires pg !in C && ItemsWhole(items, C)
    ensures Cow(Leaf(pg, items), base, C)
  {
  }

  lemma LeafItems(t: Tree, base: Tree, C: set<Pgno>)
    requires t.Leaf? && Cow(t, base, C)
    ensures ItemsWhole(t.items, C)
  {
  }

  lemma {:induction false} MergeCow(env: Env, left: Tree, right: Tree, p: Pool, base: Tree, C: set<Pgno>)
    requires Cow(left, base, C) && Cow(right, base, C) && Apart(p, C)
    ensures EvenedCow(Merge(env, left, right, p), base, C)
  {
    hide Apart, Cow, Used, RunWhole, JoinKids, TouchPage, Loosen;
    var (pg, p1) := TouchPage(left.pg, p);
    TouchApart(left.pg, p, C);
    LoosenApart(right.pg, p1, C);
    CountersApart(Loosen(p1, right.pg), C);
    if left.Leaf? && right.Leaf? {
      LeafItems(left, base, C);
      LeafItems(right, base, C);
      LeafCow(pg, left.items + right.items, base, C);
    } else if left.Branch? && right.Branch? {
      CowKids(left, base, C);
      CowKids(right, base, C);
      JoinedCow(left.kids, right.kids, base, C);
      CowBranch(pg, JoinKids(left.kids, right.kids), base, C);
    }
  }

  lemma CountersApart(p: Pool, C: set<Pgno>)
    ensures forall n :: Apart(p.(leaf := n), C) == Apart(p, C) && Apart(p.(branch := n), C) == Apart(p, C)
  {
  }

  lemma {:induction false} DivideCow(env: Env, lpg: Pgno, left: Tree, rpg: Pgno, right: Tree, s: nat, p: Pool, base: Tree, C: set<Pgno>)
    requires Cow(left, base, C) && Cow(right, base, C) && Apart(p, C) && lpg !in C && rpg !in C
    ensures EvenedCow(Divide(env, lpg, left, rpg, right, s, p), base, C)
  {
    hide Apart, Cow, Used, RunWhole, JoinKids;
    if left.Leaf? && right.Leaf? {
      var items := left.items + right.items;
      LeafItems(left, base, C);
      LeafItems(right, base, C);
      if s <= |items| {
        LeafCow(lpg, items[..s], base, C);
        LeafCow(rpg, items[s..], base, C);
      }
    } else if left.Branch? && right.Branch? {
      var kids := JoinKids(left.kids, right.kids);
      CowKids(left, base, C);
      CowKids(right, base, C);
      JoinedCow(left.kids, right.kids, base, C);
      if s < |kids| {
        CowBranch(lpg, kids[..s], base, C);
        CowBranch(rpg, RightHalf(kids, s), base, C);
      }
    }
  }

  lemma {:induction false} MoveCow(env: Env, left: Tree, right: Tree, p: Pool, base: Tree, C: set<Pgno>)
    requires Cow(left, base, C) && Cow(right, base, C) && Apart(p, C)
    ensures EvenedCow(MoveLeft(env, left, right, p), base, C) && EvenedCow(MoveRight(env, left, right, p), base, C)
  {
    hide Apart, Cow, Divide, TouchPage, EvenedCow;
    FullCow(base, C);
    TouchApart(right.pg, p, C);
    var (rpg, p1) := TouchPage(right.pg, p);
    TouchApart(left.pg, p1, C);
    var (lpg, p2) := TouchPage(left.pg, p1);
    DivideCow(env, lpg, left, rpg, right, NumKeys(left) + 1, p2, base, C);
    TouchApart(left.pg, p, C);
    var (lpg', p1') := TouchPage(left.pg, p);
    TouchApart(right.pg, p1', C);
    var (rpg', p2') := TouchPage(right.pg, p1');
    if NumKeys(left) > 0 { DivideCow(env, lpg', left, rpg', right, NumKeys(left) - 1, p2', base, C); }
  }

  lemma FullCow(base: Tree, C: set<Pgno>)
    ensures EvenedCow(PageFull, base, C)
  {
  }

  lemma {:induction false} RebalanceCow(env: Env, pg: Pgno, kids: seq<Kid>, i: nat, p: Pool, base: Tree, C: set<Pgno>)
    requires env.PMax() > 0 && i < |kids| && |kids| >= 2 && pg !in C && Apart(p, C)
    requires forall j :: 0 <= j < |kids| ==> Cow(kids[j].sub, base, C)
    ensures ShrunkCow(Rebalance(env, pg, kids, i, p), base, C)
  {
    hide Apart, Cow, Merge, MoveLeft, MoveRight, CanSpare, KeyFits, SplitBranch;
    var m := if i == 0 then 1 else i;
    var left, right := kids[m - 1].sub, kids[m].sub;
    MergeCow(env, left, right, p, base, C);
    MoveCow(env, left, right, p, base, C);
    var e := if i == 0 then MoveLeft(env, left, right, p) else MoveRight(env, left, right, p);
    if e.Moved? {
      var kids1 := kids[..m - 1] + [Kid(kids[m - 1].sep, e.left)] + kids[m + 1..];
      assert forall j :: 0 <= j < |kids1| ==> Cow(kids1[j].sub, base, C);
      CowBranch(pg, kids[m - 1 := Kid(kids[m - 1].sep, e.left)][m := Kid(At(e.sep), e.right)], base, C);
      SplitBranchCow(env, pg, kids1, m, e.sep, e.right, e.p, base, C);
      SplitNeverSame(env, pg, kids1, m, e.sep, e.right, e.p);
    }
    var h := Merge(env, left, right, p);
    if h.Merged? {
      var kids2 := kids[..m - 1] + [Kid(kids[m - 1].sep, h.t)] + kids[m + 1..];
      assert forall j :: 0 <= j < |kids2| ==> Cow(kids2[j].sub, base, C);
      CowBranch(pg, kids2, base, C);
    }
  }

  lemma SplitNeverSame(env: Env, pg: Pgno, kids: seq<Kid>, i: nat, sep: Key, sub: Tree, p: Pool)
    requires 0 < i <= |kids|
    ensures !SplitBranch(env, pg, kids, i, sep, sub, p).0.Same?
    ensures var g := AddKid(env, pg, kids, i, sep, sub, p).0; g.Same? ==> g.t.pg == pg
  {
  }

  lemma {:induction false} AboveCow(env: Env, pg: Pgno, kids: seq<Kid>, i: nat, r: Shrunk, base: Tree, C: set<Pgno>)
    requires env.PMax() > 0 && i < |kids| && pg !in C && ShrunkCow(r, base, C)
    requires forall j :: 0 <= j < |kids| ==> Cow(kids[j].sub, base, C)
    ensures ShrunkCow(Above(env, pg, kids, i, r), base, C)
  {
    hide Apart, Cow, Rebalance, Underfull, AddKid;
    match r
    case Shrunk(sub, lost, p) =>
      var kids' := kids[i := Kid(kids[i].sep, sub)];
      CowBranch(pg, kids', base, C);
      if |kids| >= 2 { RebalanceCow(env, pg, kids', i, p, base, C); }
    case Swollen(l, sep, r', p) =>
      SplitBranchCow(env, pg, kids[i := Kid(kids[i].sep, l)], i + 1, sep, r', p, base, C);
      SplitNeverSame(env, pg, kids[i := Kid(kids[i].sep, l)], i + 1, sep, r', p);
    case _ =>
  }

  /** Deleting a binding below a page changes no page in C. */
  lemma {:induction false} DelCow(env: Env, t: Tree, k: Key, p: Pool, base: Tree, C: set<Pgno>)
    requires env.PMax() > 0 && Searchable(t) && Cow(t, base, C) && PathFree(t, k, C) && Apart(p, C)
    ensures ShrunkCow(Del(env, t, k, p), base, C)
    decreases t
  {
    match t
    case Leaf(pg, items) =>
      hide Apart, RunWhole, Within, FreeRun;
      var i := Position(items, k);
      if i < |items| {
        if items[i].store.Overflow? { FreeRunApart(p, items[i], C); }
        LeafCow(pg, items[..i] + items[i + 1..], base, C);
      }
    case Branch(pg, kids) =>
      hide Apart, Within, Above;
      var i := ChildAt(kids, k);
      var kid := kids[i];
      assert kid.sub < kid;
      CowKids(t, base, C);
      DelCow(env, kid.sub, k, p, base, C);
      AboveCow(env, pg, kids, i, Del(env, kid.sub, k, p), base, C);
  }

  // ---- At the root ---------------------------------------------------------------------------

  ghost predicate RootCow(r: Root, base: Tree, C: set<Pgno>) {
    r.Root? ==> Cow(r.tree, base, C)
  }

  lemma {:induction false} NewRootCow(left: Tree, sep: Key, right: Tree, p: Pool, base: Tree, C: set<Pgno>)
    requires Cow(left, base, C) && Cow(right, base, C) && Apart(p, C)
    ensures var (t, p') := NewRoot(left, sep, right, p); Cow(t, base, C) && Apart(p', C)
  {
    hide Apart, Cow, Take;
    TakeApart(p, C);
    CowBranch(NewBranch(p).0, [Kid(Empty, left), Kid(At(sep), right)], base, C);
  }

  /** mdb_put on a non-empty table changes no page that anybody may still need. */
  lemma {:induction false} PutKeepsCommitted(env: Env, t: Tree, d: nat, k: Key, v: Val, p: Pool, base: Tree, C: set<Pgno>)
    requires env.psize > 0 && Searchable(t) && Cow(t, base, C) && Apart(p, C)
    ensures var (t1, p1) := TouchPath(t, k, p);
            Searchable(t1) && var (r, _, p') := RootPut(env, t1, d, k, v, p1); RootCow(r, base, C) && Apart(p', C)
  {
    hide Apart, Cow, Put, NewRoot;
    var (t1, p1) := TouchPath(t, k, p);
    TouchPathCow(t, k, p, base, C);
    PutCow(env, t1, k, v, p1, base, C);
    var (g, p2) := Put(env, t1, k, v, p1);
    if g.Split? { NewRootCow(g.left, g.sep, g.right, p2, base, C); }
  }

  /** Nor does mdb_del. */
  lemma {:induction false} DelKeepsCommitted(env: Env, t: Tree, d: nat, k: Key, p: Pool, base: Tree, C: set<Pgno>)
    requires env.PMax() > 0 && Searchable(t) && Cow(t, base, C) && Apart(p, C)
    ensures var (t1, p1) := TouchPath(t, k, p);
            Searchable(t1) && var (_, r, _, p') := RootDel(env, t1, d, k, p1); RootCow(r, base, C) && Apart(p', C)
  {
    hide Apart, Cow, Del, NewRoot;
    var (t1, p1) := TouchPath(t, k, p);
    TouchPathCow(t, k, p, base, C);
    DelCow(env, t1, k, p1, base, C);
    match Del(env, t1, k, p1)
    case Shrunk(t', lost, p2) =>
      TrimCow(env, t', d, p2, base, C);
    case Swollen(l, sep, r, p2) => NewRootCow(l, sep, r, p2, base, C);
    case _ =>
  }

  lemma {:induction false} TrimCow(env: Env, t: Tree, d: nat, p: Pool, base: Tree, C: set<Pgno>)
    requires env.PMax() > 0 && Cow(t, base, C) && Apart(p, C)
    ensures var (r, _, p') := TrimRoot(env, t, d, p); RootCow(r, base, C) && Apart(p', C)
  {
    hide Apart, Within;
    LoosenApart(t.pg, p, C);
    CountersApart(Free(p, t.pg), C);
    if t.Branch? { CowKids(t, base, C); }
  }
}
