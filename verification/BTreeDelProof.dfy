/** Deleting a binding refines removing it from the map the tree stands for. */
module BTreeDelProof {
  import opened BTree
  import opened BTreeSearch
  import opened PagePool
  import opened BTreePut
  import opened BTreePutProof
  import opened BTreeDel

  /** A sequence of bindings without the one of a key. */
  function Remove(es: seq<Entry>, k: Key): seq<Entry> {
    if es == [] then []
    else if es[0].key == k then es[1..]
    else [es[0]] + Remove(es[1..], k)
  }

  /** After a removal the key is missing and every other key has its old value. */
  lemma {:induction false} RemoveLookup(es: seq<Entry>, k: Key, x: Key)
    requires Ascending(es)
    ensures Lookup(Remove(es, k), x) == if x == k then Missing else Lookup(es, x)
  {
    if es != [] {
      if es[0].key == k {
        assert forall i :: 0 <= i < |es[1..]| ==> es[1..][i] == es[i + 1];
        if x == k { LookupOutside(es[1..], k); }
      } else {
        RemoveLookup(es[1..], k, x);
        assert ([es[0]] + Remove(es[1..], k))[1..] == Remove(es[1..], k);
      }
    }
  }

  lemma {:induction false} RemoveBounds(es: seq<Entry>, k: Key, x: Key)
    ensures Below(es, x) ==> Below(Remove(es, k), x)
    ensures AtLeast(es, x) ==> AtLeast(Remove(es, k), x)
  {
    if es != [] && es[0].key != k { RemoveBounds(es[1..], k, x); }
  }

  /** Exactly one binding goes, if the key has one. */
  lemma {:induction false} RemoveLength(es: seq<Entry>, k: Key)
    ensures |Remove(es, k)| == |es| - if Lookup(es, k) == Missing then 0 else 1
  {
    if es != [] && es[0].key != k { RemoveLength(es[1..], k); }
  }

  lemma RemoveFirst(es: seq<Entry>, k: Key)
    ensures es == [] ==> Remove(es, k) == []
    ensures es != [] && es[0].key == k ==> Remove(es, k) == es[1..]
    ensures es != [] && es[0].key != k ==> Remove(es, k) == [es[0]] + Remove(es[1..], k)
  {
  }

  lemma {:induction false} RemoveAbsent(es: seq<Entry>, k: Key)
    requires AtLeast(es, k + 1)
    ensures Remove(es, k) == es
  {
    if es != [] { RemoveAbsent(es[1..], k); }
  }

  lemma {:induction false} RemoveMiddle(a: seq<Entry>, b: seq<Entry>, c: seq<Entry>, k: Key)
    requires Below(a, k) && AtLeast(c, k + 1)
    ensures Remove(a + b + c, k) == a + Remove(b, k) + c
    decreases |a| + |b|
  {
    hide Below, AtLeast, Remove;
    RemoveFirst(a + b + c, k);
    RemoveFirst(b, k);
    if a != [] {
      BelowFirst(a, k);
      assert (a + b + c)[1..] == a[1..] + b + c;
      RemoveMiddle(a[1..], b, c, k);
      assert [a[0]] + (a[1..] + Remove(b, k) + c) == a + Remove(b, k) + c;
    } else if b != [] {
      assert (a + b + c)[1..] == b[1..] + c;
      if b[0].key != k {
        RemoveMiddle([], b[1..], c, k);
        assert [] + b[1..] + c == b[1..] + c;
      }
    } else {
      RemoveAbsent(c, k);
      assert a + b + c == c;
    }
  }

  lemma {:induction false} Around(es: seq<Entry>, i: nat)
    requires Ascending(es) && i < |es|
    ensures Below(es[..i], es[i].key) && AtLeast(es[i + 1..], es[i].key + 1)
    ensures es == es[..i] + [es[i]] + es[i + 1..]
  {
  }

  lemma WithoutItem(items: seq<Item>, i: nat)
    requires i < |items|
    ensures Entries(items[..i] + items[i + 1..]) == Entries(items)[..i] + Entries(items)[i + 1..]
  {
  }

  lemma {:induction false} RemoveItem(items: seq<Item>, k: Key)
    requires Ascending(Entries(items))
    requires var i := Position(items, k); i < |items| && items[i].key == k
    ensures var i := Position(items, k); Remove(Entries(items), k) == Entries(items[..i] + items[i + 1..])
  {
    var i, es := Position(items, k), Entries(items);
    var a, c := es[..i], es[i + 1..];
    Around(es, i);
    assert Remove([es[i]], k) == [];
    WithoutItem(items, i);
    hide Below, AtLeast, Ascending, Remove, Position, Entries;
    RemoveMiddle(a, [es[i]], c, k);
    assert a + [] + c == a + c;
  }

  // ---- A page that lost a node ---------------------------------------------------------------

  /** A good tree, except that the page at the top may have one node too few. */
  ghost predicate Weak(env: Env, t: Tree, d: nat) {
    match t
    case Leaf(_, items) => d == 1 && ItemsOk(env, items)
    case Branch(_, kids) =>
      d > 1 && |kids| >= 1 && KidsOk(env, kids, d - 1) && Sum(KidSizes(env, kids)) <= env.PMax()
  }

  lemma {:induction false} GoodIsWeak(env: Env, t: Tree, d: nat)
    requires GoodTree(env, t, d)
    ensures Weak(env, t, d) && NumKeys(t) >= MinKeys(t)
  {
    if t.Branch? { GoodKids(env, t, d); }
  }

  lemma {:induction false} WeakIsGood(env: Env, t: Tree, d: nat)
    requires Weak(env, t, d) && NumKeys(t) >= MinKeys(t)
    ensures GoodTree(env, t, d)
  {
    if t.Branch? { BranchGood(env, t.pg, t.kids, d - 1); }
  }

  lemma {:induction false} QuarterFull(used: int, pmax: int)
    requires pmax > 0
    ensures 1000 * used / pmax < 250 <==> 4 * used < pmax
  {
    var q := 1000 * used / pmax;
    assert q * pmax <= 1000 * used < q * pmax + pmax;
    if q < 250 { Times(q + 1, 250, pmax); } else { Times(250, q, pmax); }
  }

  lemma {:induction false} Times(a: int, b: int, m: int)
    requires a <= b && m >= 0
    ensures a * m <= b * m
  {
  }

  /**
   What becomes of child i of a branch after a deletion below it. If it lost a node and uses less
   than a quarter of the page, or has too few nodes, it gets one node of its neighbour, the left
   one unless it is the first child, or if the neighbour has none to spare, being no more than a
   quarter full or at its minimum, the two become one page; otherwise nothing moves.
   */
  lemma SettleIs(env: Env, pg: Pgno, kids: seq<Kid>, i: nat, sub: Tree, lost: bool, p: Pool)
    requires env.Ok() && i < |kids| && |kids| >= 2
    ensures var r, m := Settle(env, pg, kids, i, sub, lost, p), if i == 0 then 1 else i;
            var nb := kids[if i == 0 then 1 else i - 1].sub;
            var poor := lost && (4 * Used(env, sub) < env.psize - 16 || NumKeys(sub) < if sub.Branch? then 2 else 1);
            var rich := 4 * Used(env, nb) >= env.psize - 16 && NumKeys(nb) > if nb.Branch? then 2 else 1;
            && (!poor ==> r == Shrunk(Branch(pg, kids[i := Kid(kids[i].sep, sub)]), false, p))
            && (poor && r.Shrunk? ==> r.t.Branch? && r.t.pg == pg && r.lost == !rich)
            && (poor && r.Shrunk? && rich ==>
                  && |r.t.kids| == |kids| && r.t.kids[..m - 1] == kids[..m - 1] && r.t.kids[m + 1..] == kids[m + 1..]
                  && NumKeys(r.t.kids[i].sub) == NumKeys(sub) + 1
                  && NumKeys(r.t.kids[if i == 0 then 1 else i - 1].sub) == NumKeys(nb) - 1)
            && (poor && r.Shrunk? && !rich ==>
                  && |r.t.kids| == |kids| - 1 && r.t.kids[..m - 1] == kids[..m - 1] && r.t.kids[m..] == kids[m + 1..]
                  && NumKeys(r.t.kids[m - 1].sub) == NumKeys(sub) + NumKeys(nb))
  {
    hide Used, Rebalance, Underfull, CanSpare;
    FillIs(env, sub);
    FillIs(env, kids[if i == 0 then 1 else i - 1].sub);
    var m := if i == 0 then 1 else i;
    var now := kids[i := Kid(kids[i].sep, sub)];
    RebalanceIs(env, pg, now, i, p);
    assert now[..m - 1] == kids[..m - 1] && now[m + 1..] == kids[m + 1..];
  }

  /**
   A deletion from a leaf, seen from the page above: what is left stays if it is a quarter of a page
   and not nothing; else the leaf gets a node of its neighbour, or they become one page.
   */
  lemma DelEvensLeaves(env: Env, t: Tree, k: Key, p: Pool)
    requires env.Ok() && Searchable(t) && t.Branch? && |t.kids| >= 2
    requires var sub := t.kids[ChildAt(t.kids, k)].sub; sub.Leaf? && Position(sub.items, k) < |sub.items|
    ensures var r, i := Del(env, t, k, p), ChildAt(t.kids, k);
            var items, nb := t.kids[i].sub.items, t.kids[if i == 0 then 1 else i - 1].sub;
            var x := Position(items, k);
            var rest := items[..x] + items[x + 1..];
            var enough := 4 * Sum(ItemSizes(env, rest)) >= env.psize - 16 && |items| > 1;
            var rich := 4 * Used(env, nb) >= env.psize - 16 && NumKeys(nb) > if nb.Branch? then 2 else 1;
            && (enough ==> r.Shrunk? && !r.lost && r.t.Branch? && r.t.pg == t.pg
                           && r.t.kids == t.kids[i := Kid(t.kids[i].sep, Leaf(t.kids[i].sub.pg, rest))])
            && (!enough && r.Shrunk? ==> r.t.Branch? && r.t.pg == t.pg && r.lost == !rich)
            && (!enough && r.Shrunk? && rich ==>
                  |r.t.kids| == |t.kids| && NumKeys(r.t.kids[i].sub) == |items|
                  && NumKeys(r.t.kids[if i == 0 then 1 else i - 1].sub) == NumKeys(nb) - 1)
            && (!enough && r.Shrunk? && !rich ==>
                  |r.t.kids| == |t.kids| - 1 && NumKeys(r.t.kids[if i == 0 then 0 else i - 1].sub) == |items| - 1 + NumKeys(nb))
  {
    hide Settle, Sum, ItemSizes, KidSizes, Del, ChildAt, Position;
    var i := ChildAt(t.kids, k);
    var leaf := t.kids[i].sub;
    var x := Position(leaf.items, k);
    var p' := DelOfLeaf(env, t, k, p);
    SettleIs(env, t.pg, t.kids, i, Leaf(leaf.pg, leaf.items[..x] + leaf.items[x + 1..]), true, p');
  }

  lemma DelOfLeaf(env: Env, t: Tree, k: Key, p: Pool) returns (p': Pool)
    requires env.Ok() && Searchable(t) && t.Branch? && |t.kids| >= 2
    requires var sub := t.kids[ChildAt(t.kids, k)].sub; sub.Leaf? && Position(sub.items, k) < |sub.items|
    ensures var i := ChildAt(t.kids, k);
            var sub := t.kids[i].sub;
            var x := Position(sub.items, k);
            Del(env, t, k, p) == Settle(env, t.pg, t.kids, i, Leaf(sub.pg, sub.items[..x] + sub.items[x + 1..]), true, p')
  {
    hide Settle, ChildAt, Position, FreeRun;
    var kid := t.kids[ChildAt(t.kids, k)];
    assert kid.sub < kid;
    var items := kid.sub.items;
    var it := items[Position(items, k)];
    p' := if it.store.Overflow? then FreeRun(p, it.store.pg, it.store.n) else p;
    assert Searchable(kid.sub);
  }

  /** When a page is looked at and when it can spare a node, in numbers. */
  lemma FillIs(env: Env, t: Tree)
    requires env.Ok()
    ensures Underfull(env, t) <==> 4 * Used(env, t) < env.psize - 16 || NumKeys(t) < if t.Branch? then 2 else 1
    ensures CanSpare(env, t) <==> 4 * Used(env, t) >= env.psize - 16 && NumKeys(t) > if t.Branch? then 2 else 1
  {
    QuarterFull(Used(env, t), env.PMax());
  }

  lemma RebalanceIs(env: Env, pg: Pgno, kids: seq<Kid>, i: nat, p: Pool)
    requires env.Ok() && i < |kids| && |kids| >= 2
    ensures var r, m, j := Rebalance(env, pg, kids, i, p), if i == 0 then 1 else i, if i == 0 then 1 else i - 1;
            r.Shrunk? ==>
              && r.t.Branch? && r.t.pg == pg && r.lost == !CanSpare(env, kids[j].sub)
              && (CanSpare(env, kids[j].sub) ==>
                    && |r.t.kids| == |kids| && r.t.kids[..m - 1] == kids[..m - 1] && r.t.kids[m + 1..] == kids[m + 1..]
                    && NumKeys(r.t.kids[i].sub) == NumKeys(kids[i].sub) + 1 && NumKeys(r.t.kids[j].sub) == NumKeys(kids[j].sub) - 1)
              && (!CanSpare(env, kids[j].sub) ==>
                    && |r.t.kids| == |kids| - 1 && r.t.kids[..m - 1] == kids[..m - 1] && r.t.kids[m..] == kids[m + 1..]
                    && NumKeys(r.t.kids[m - 1].sub) == NumKeys(kids[i].sub) + NumKeys(kids[j].sub))
  {
    hide CanSpare, NumKeys, Merge, MoveLeft, MoveRight, SplitBranch, KeyFits, Used;
    var m := if i == 0 then 1 else i;
    EvenedNodes(env, kids[m - 1].sub, kids[m].sub, p);
    var left, right := kids[m - 1].sub, kids[m].sub;
    var e := if i == 0 then MoveLeft(env, left, right, p) else MoveRight(env, left, right, p);
    if e.Moved? {
      SplitDivides(env, pg, kids[..m - 1] + [Kid(kids[m - 1].sep, e.left)] + kids[m + 1..], m, e.sep, e.right, e.p);
    }
  }

  lemma SplitDivides(env: Env, pg: Pgno, kids: seq<Kid>, i: nat, sep: Key, sub: Tree, p: Pool)
    requires 0 < i <= |kids|
    ensures !SplitBranch(env, pg, kids, i, sep, sub, p).0.Same?
  {
    hide Used, KidSizes;
  }


  lemma EvenedNodes(env: Env, left: Tree, right: Tree, p: Pool)
    ensures var e := Merge(env, left, right, p); e.Merged? ==> NumKeys(e.t) == NumKeys(left) + NumKeys(right)
    ensures var e := MoveLeft(env, left, right, p);
            e.Moved? ==> NumKeys(e.left) == NumKeys(left) + 1 && NumKeys(e.right) == NumKeys(right) - 1
    ensures var e := MoveRight(env, left, right, p);
            e.Moved? ==> NumKeys(e.left) == NumKeys(left) - 1 && NumKeys(e.right) == NumKeys(right) + 1
  {
    hide Used, TouchPage, Loosen, Lowest;
  }

  /** A page mdb_rebalance acts on is less than a quarter full. */
  lemma {:induction false} UnderfullIsSmall(env: Env, t: Tree, d: nat)
    requires env.Ok() && Weak(env, t, d) && Underfull(env, t)
    ensures 4 * Used(env, t) < env.PMax()
  {
    QuarterFull(Used(env, t), env.PMax());
    if t.Branch? && |t.kids| == 1 {
      assert t.kids[0].sep.Empty? && KidSizes(env, t.kids) == [10];
      assert [10][1..] == [];
    }
  }

  /** A neighbour that cannot spare a node leaves room for a quarter page, and a key more in a branch. */
  lemma {:induction false} UnsparingIsSmall(env: Env, t: Tree, d: nat)
    requires env.Ok() && Weak(env, t, d) && !CanSpare(env, t)
    ensures 2 * Used(env, t) <= env.PMax()
    ensures t.Branch? ==> 4 * Used(env, t) < 3 * env.PMax() - 4 * 512
  {
    QuarterFull(Used(env, t), env.PMax());
    if t.Branch? && |t.kids| <= 2 {
      KidSizeBound(env, t.kids[|t.kids| - 1]);
      assert t.kids[0].sep.Empty?;
      FirstSize(env, t.kids);
      if |t.kids| == 2 {
        FirstSize(env, t.kids[1..]);
        assert t.kids[1..][1..] == [];
      } else {
        assert t.kids[1..] == [];
      }
    } else if t.Leaf? && |t.items| == 1 {
      ItemSizeBound(env, t.items[0]);
      var ns := ItemSizes(env, t.items);
      assert ns[1..] == [];
      assert Sum(ns) == ns[0] + Sum(ns[1..]);
    }
  }

  // ---- Two neighbouring pages in one row -----------------------------------------------------

  lemma {:induction false} LowestIsFirst(t: Tree)
    requires Sorted(t)
    ensures |Flat(t)| > 0 && Lowest(t) == Flat(t)[0].key && AtLeast(Flat(t), Lowest(t))
    decreases t
  {
    FlatNonEmpty(t);
    if t.Branch? {
      var kid := t.kids[0];
      assert kid.sub < kid;
      LowestIsFirst(kid.sub);
    }
    FlatAscending(t);
  }

  lemma {:induction false} JoinedItems(env: Env, a: seq<Item>, b: seq<Item>, x: Key)
    requires ItemsOk(env, a) && ItemsOk(env, b)
    requires Below(Entries(a), x) && AtLeast(Entries(b), x)
    ensures Ascending(Entries(a + b)) && Entries(a + b) == Entries(a) + Entries(b)
    ensures forall i :: 0 <= i < |a + b| ==> ItemOk(env, (a + b)[i])
    ensures Sum(ItemSizes(env, a + b)) == Sum(ItemSizes(env, a)) + Sum(ItemSizes(env, b))
  {
    assert Entries(a + b) == Entries(a) + Entries(b);
    assert forall i :: 0 <= i < |a + b| ==> ItemOk(env, (a + b)[i]);
    AscendingAppend(Entries(a), Entries(b), x);
    hide Ascending, ItemOk, Below, AtLeast;
    SizesAppend(env, a, b);
    SumAppend(ItemSizes(env, a), ItemSizes(env, b));
  }

  lemma {:induction false} BoundTrans(es: seq<Entry>, x: Key, y: Key)
    requires x <= y
    ensures Below(es, x) ==> Below(es, y)
    ensures AtLeast(es, y) ==> AtLeast(es, x)
  {
  }

  /** The first key below a branch is at or below every key of the branch and below its separators. */
  lemma {:induction false} LowestBounds(env: Env, kids: seq<Kid>, d: nat, x: Key)
    requires KidsOk(env, kids, d) && |kids| > 0 && AtLeast(FlatKids(kids), x)
    ensures var low := Lowest(kids[0].sub);
            && x <= low
            && (forall j :: 0 <= j < |kids| ==> AtLeast(Flat(kids[j].sub), low))
            && (forall j :: 0 < j < |kids| ==> low < kids[j].sep.key)
  {
    LowestIsFirst(kids[0].sub);
    KidsBound(kids, x);
    var low := Lowest(kids[0].sub);
    assert Flat(kids[0].sub)[0].key == low;
    forall j | 0 < j < |kids| ensures low < kids[j].sep.key && AtLeast(Flat(kids[j].sub), low) {
      assert Below(Flat(kids[0].sub), kids[j].sep.key);
      BoundTrans(Flat(kids[j].sub), low, kids[j].sep.key);
    }
  }

  /** Separators of the left page also divide it from everything on the right page. */
  lemma {:induction false} SepsBelow(env: Env, kids: seq<Kid>, d: nat, x: Key)
    requires KidsOk(env, kids, d) && Below(FlatKids(kids), x)
    ensures forall j :: 0 < j < |kids| ==> kids[j].sep.key < x
  {
    KidsBound(kids, x);
    forall j | 0 < j < |kids| ensures kids[j].sep.key < x {
      FlatNonEmpty(kids[j].sub);
      Between([], Flat(kids[j].sub), kids[j].sep.key, x);
    }
  }

  lemma {:induction false} JoinedFlat(left: seq<Kid>, right: seq<Kid>)
    ensures FlatKids(JoinKids(left, right)) == FlatKids(left) + FlatKids(right)
  {
    hide FlatKids;
    if right != [] {
      var mid := Kid(At(Lowest(right[0].sub)), right[0].sub);
      FlatAppend(left + [mid], right[1..]);
      FlatAppend(left, [mid]);
      FlatOne(mid);
      FlatSplit(right, 0);
      FlatEmpty();
      assert right[..0] == [] && [] + Flat(right[0].sub) == Flat(right[0].sub);
      assert FlatKids(left) + Flat(mid.sub) + FlatKids(right[1..]) == FlatKids(left) + (Flat(mid.sub) + FlatKids(right[1..]));
    } else {
      FlatEmpty();
    }
  }

  lemma FlatEmpty()
    ensures FlatKids([]) == []
  {
  }

  lemma {:induction false} JoinedKids(env: Env, left: seq<Kid>, right: seq<Kid>, x: Key, d: nat)
    requires KidsOk(env, left, d) && KidsOk(env, right, d) && |right| > 0 && |left| > 0
    requires Below(FlatKids(left), x) && AtLeast(FlatKids(right), x)
    ensures KidsOk(env, JoinKids(left, right), d)
  {
    var low := Lowest(right[0].sub);
    var row := JoinKids(left, right);
    LowestBounds(env, right, d, x);
    SepsBelow(env, left, d, x);
    KidsBound(left, x);
    KidsBound(right, x);
    forall j, y | 0 <= j < |left| && low <= y ensures Below(Flat(left[j].sub), y) { BoundTrans(Flat(left[j].sub), x, y); }
    forall j, y | 0 <= j < |right| && y <= low ensures AtLeast(Flat(right[j].sub), y) { BoundTrans(Flat(right[j].sub), y, low); }
    hide GoodTree, Below, AtLeast, FlatKids, Lowest, Flat;
    RowSeparated(left, right, low, row);
    forall i | 0 <= i < |row| ensures GoodTree(env, row[i].sub, d) {
      assert row[i].sub == if i < |left| then left[i].sub else right[i - |left|].sub;
    }
  }

  lemma {:induction false} RowSeparated(left: seq<Kid>, right: seq<Kid>, low: Key, row: seq<Kid>)
    requires |left| > 0 && |right| > 0 && Separated(left) && Separated(right)
    requires row == left + [Kid(At(low), right[0].sub)] + right[1..]
    requires forall j :: 0 < j < |left| ==> left[j].sep.key < low
    requires forall j :: 0 < j < |right| ==> low < right[j].sep.key
    requires forall j, y :: 0 <= j < |left| && low <= y ==> Below(Flat(left[j].sub), y)
    requires forall j, y :: 0 <= j < |right| && y <= low ==> AtLeast(Flat(right[j].sub), y)
    ensures Separated(row)
  {
    hide Below, AtLeast, Flat;
    var n := |left|;
    assert |row| == n + |right|;
    assert forall i :: 0 <= i < n ==> row[i] == left[i];
    assert forall i :: n <= i < |row| ==> row[i].sub == right[i - n].sub;
    assert forall i :: n < i < |row| ==> row[i].sep == right[i - n].sep;
    assert row[n].sep == At(low);
    forall i, j | 0 < i < |row| && 0 <= j < i ensures Below(Flat(row[j].sub), row[i].sep.key) {
      assert i > n && j >= n ==> Below(Flat(right[j - n].sub), right[i - n].sep.key);
    }
    forall i, j | 0 < i <= j < |row| ensures AtLeast(Flat(row[j].sub), row[i].sep.key) {
      assert i > n ==> AtLeast(Flat(right[j - n].sub), right[i - n].sep.key);
    }
  }

  lemma {:induction false} JoinedSize(env: Env, left: seq<Kid>, right: seq<Kid>)
    requires env.Ok() && |right| > 0 && right[0].sep.Empty?
    ensures Sum(KidSizes(env, JoinKids(left, right))) <=
            Sum(KidSizes(env, left)) + Sum(KidSizes(env, right)) + 512
  {
    var mid := Kid(At(Lowest(right[0].sub)), right[0].sub);
    KidSizesAppend(env, left, [mid] + right[1..]);
    assert left + ([mid] + right[1..]) == JoinKids(left, right);
    SumAppend(KidSizes(env, left), KidSizes(env, [mid] + right[1..]));
    FirstSize(env, [mid] + right[1..]);
    FirstSize(env, right);
    KidSizeBound(env, mid);
  }

  lemma {:induction false} FirstSize(env: Env, kids: seq<Kid>)
    requires |kids| > 0
    ensures Sum(KidSizes(env, kids)) == KidSize(env, kids[0]) + Sum(KidSizes(env, kids[1..]))
  {
    assert KidSizes(env, kids)[1..] == KidSizes(env, kids[1..]);
  }

  // ---- Merging and moving --------------------------------------------------------------------

  /** What mdb_rebalance finds: a page that lost a node and a neighbour, the left one below the right. */
  ghost predicate Neighbours(env: Env, left: Tree, right: Tree, x: Key, d: nat) {
    && Weak(env, left, d) && Weak(env, right, d)
    && (NumKeys(left) >= MinKeys(left) || NumKeys(right) >= MinKeys(right))
    && Below(Flat(left), x) && AtLeast(Flat(right), x)
  }

  /**
   Merge bound: if one of two neighbours is underfull and the other cannot spare a node, all
   their nodes fit on one page, with the branch key that must be filled in.
   */
  lemma {:induction false} MergeFits(env: Env, left: Tree, right: Tree, x: Key, d: nat, p: Pool)
    requires env.Ok() && Neighbours(env, left, right, x, d)
    requires (Underfull(env, left) && !CanSpare(env, right)) || (Underfull(env, right) && !CanSpare(env, left))
    ensures Merge(env, left, right, p).Merged?
    ensures GoodTree(env, Merge(env, left, right, p).t, d)
    ensures Flat(Merge(env, left, right, p).t) == Flat(left) + Flat(right)
  {
    if Underfull(env, left) && !CanSpare(env, right) {
      UnderfullIsSmall(env, left, d);
      UnsparingIsSmall(env, right, d);
    } else {
      UnderfullIsSmall(env, right, d);
      UnsparingIsSmall(env, left, d);
    }
    hide KidsOk, ItemsOk, Below, AtLeast, Sum, KidSizes, ItemSizes, Ascending, PageFill, GoodTree, TouchPage, Loosen, FlatKids;
    if d == 1 {
      JoinedItems(env, left.items, right.items, x);
      RowIsGoodLeaf(env, TouchPage(left.pg, p).0, left.items + right.items);
    } else {
      FirstIsEmpty(env, right.kids, d - 1);
      JoinedKids(env, left.kids, right.kids, x, d - 1);
      JoinedFlat(left.kids, right.kids);
      JoinedSize(env, left.kids, right.kids);
      BranchGood(env, TouchPage(left.pg, p).0, JoinKids(left.kids, right.kids), d - 1);
    }
  }

  lemma RowIsGoodLeaf(env: Env, pg: Pgno, items: seq<Item>)
    requires |items| > 0 && Ascending(Entries(items)) && Sum(ItemSizes(env, items)) <= env.PMax()
    requires forall i :: 0 <= i < |items| ==> ItemOk(env, items[i])
    ensures GoodTree(env, Leaf(pg, items), 1)
  {
  }

  lemma FirstIsEmpty(env: Env, kids: seq<Kid>, d: nat)
    requires KidsOk(env, kids, d) && |kids| > 0
    ensures kids[0].sep.Empty?
  {
  }

  lemma {:induction false} LeafMoveFits(env: Env, lpg: Pgno, left: Tree, rpg: Pgno, right: Tree, s: nat, x: Key, p: Pool)
    requires env.Ok() && Neighbours(env, left, right, x, 1)
    requires (4 * Used(env, left) < env.PMax() && |right.items| > 1 && s == |left.items| + 1) ||
             (4 * Used(env, right) < env.PMax() && |left.items| > 1 && s == |left.items| - 1)
    ensures var e := Divide(env, lpg, left, rpg, right, s, p);
            e.Moved? && Stores(env, Split(e.left, e.sep, e.right), Flat(left) + Flat(right), 1)
  {
    hide Below, AtLeast, Ascending, Stores, ItemOk, Sum, ItemSizes, Entries, ItemsOk;
    JoinedItems(env, left.items, right.items, x);
    LeafHalves(env, left.items, right.items, s);
    LeafSplitStores(env, lpg, rpg, left.items + right.items, s);
  }

  lemma {:induction false} LeafHalves(env: Env, a: seq<Item>, b: seq<Item>, s: nat)
    requires env.Ok() && ItemsOk(env, a) && ItemsOk(env, b)
    requires (4 * Sum(ItemSizes(env, a)) < env.PMax() && |b| > 1 && s == |a| + 1) ||
             (4 * Sum(ItemSizes(env, b)) < env.PMax() && |a| > 1 && s == |a| - 1)
    ensures 0 < s < |a + b|
    ensures Sum(ItemSizes(env, (a + b)[..s])) <= env.PMax() && Sum(ItemSizes(env, (a + b)[s..])) <= env.PMax()
  {
    hide ItemsOk, Sum, ItemSizes;
    var row := a + b;
    if s == |a| + 1 {
      LeafSums(env, a, b);
      assert row[..s] == a + b[..1] && row[s..] == b[1..];
    } else {
      LeafSums'(env, a, b);
      assert row[..s] == a[..s] && row[s..] == a[s..] + b;
    }
  }

  lemma {:induction false} LeafSums(env: Env, a: seq<Item>, b: seq<Item>)
    requires env.Ok() && ItemsOk(env, a) && ItemsOk(env, b) && |b| > 0
    requires 4 * Sum(ItemSizes(env, a)) < env.PMax()
    ensures Sum(ItemSizes(env, a + b[..1])) <= env.PMax() && Sum(ItemSizes(env, b[1..])) <= env.PMax()
  {
    var ns := ItemSizes(env, b);
    ItemSizeBound(env, b[0]);
    SizesAppend(env, a, b[..1]);
    SumAppend(ItemSizes(env, a), ItemSizes(env, b[..1]));
    assert ItemSizes(env, b[..1]) == [ns[0]] && [ns[0]][1..] == [];
    assert ItemSizes(env, b[1..]) == ns[1..];
  }

  lemma {:induction false} LeafSums'(env: Env, a: seq<Item>, b: seq<Item>)
    requires env.Ok() && ItemsOk(env, a) && ItemsOk(env, b) && |a| > 0
    requires 4 * Sum(ItemSizes(env, b)) < env.PMax()
    ensures var s := |a| - 1;
            Sum(ItemSizes(env, a[..s])) <= env.PMax() && Sum(ItemSizes(env, a[s..] + b)) <= env.PMax()
  {
    var s := |a| - 1;
    var ns := ItemSizes(env, a);
    ItemSizeBound(env, a[s]);
    SizesAppend(env, a[..s], a[s..]);
    SizesAppend(env, a[s..], b);
    assert a[..s] + a[s..] == a;
    SumAppend(ItemSizes(env, a[..s]), ItemSizes(env, a[s..]));
    SumAppend(ItemSizes(env, a[s..]), ItemSizes(env, b));
    assert ItemSizes(env, a[s..]) == [ns[s]] && [ns[s]][1..] == [];
  }

  /** Two branches in one row, and the two halves of it that moving one node makes. */
  lemma {:induction false} RowHalves(env: Env, a: seq<Kid>, b: seq<Kid>, s: nat, d: nat)
    requires env.Ok() && KidsOk(env, a, d) && KidsOk(env, b, d) && KidsOk(env, JoinKids(a, b), d)
    requires Sum(KidSizes(env, a)) <= env.PMax() && Sum(KidSizes(env, b)) <= env.PMax()
    requires (4 * Sum(KidSizes(env, a)) < env.PMax() && |a| >= 1 && |b| > 2 && s == |a| + 1) ||
             (4 * Sum(KidSizes(env, b)) < env.PMax() && |b| >= 1 && |a| > 2 && s == |a| - 1)
    ensures var row := JoinKids(a, b);
            && 2 <= s && s + 2 <= |row| && row[s].sep.At?
            && Sum(KidSizes(env, row[..s])) <= env.PMax() && Sum(KidSizes(env, row[s..])) <= env.PMax()
            && Sum(KidSizes(env, RightHalf(row, s))) <= env.PMax()
  {
    hide Sum, KidSizes, GoodTree, Below, AtLeast, Lowest;
    var row := JoinKids(a, b);
    KidSums(env, a, b);
    KidSizeBound(env, row[s]);
    FirstSize(env, row[s..]);
    FirstSize(env, RightHalf(row, s));
    assert row[s..][1..] == row[s + 1..] && RightHalf(row, s)[1..] == row[s + 1..];
  }

  lemma {:induction false} BranchMoveFits(env: Env, lpg: Pgno, left: Tree, rpg: Pgno, right: Tree, s: nat, x: Key, d: nat, p: Pool)
    requires env.Ok() && d > 1 && Neighbours(env, left, right, x, d)
    requires (4 * Used(env, left) < env.PMax() && |right.kids| > 2 && s == |left.kids| + 1) ||
             (4 * Used(env, right) < env.PMax() && |left.kids| > 2 && s == |left.kids| - 1)
    ensures var e := Divide(env, lpg, left, rpg, right, s, p);
            e.Moved? && Stores(env, Split(e.left, e.sep, e.right), Flat(left) + Flat(right), d)
  {
    hide Below, AtLeast, Stores, KidsOk, Sum, KidSizes, JoinKids, FlatKids, RightHalf;
    var a, b := left.kids, right.kids;
    JoinedKids(env, a, b, x, d - 1);
    JoinedFlat(a, b);
    RowHalves(env, a, b, s, d - 1);
    BranchSplitStores(env, lpg, rpg, JoinKids(a, b), s, d - 1);
  }

  /** Moving one node from the fuller page keeps both pages within bounds. */
  lemma {:induction false} KidSums(env: Env, a: seq<Kid>, b: seq<Kid>)
    requires env.Ok() && |a| > 0 && |b| > 0 && b[0].sep.Empty?
    requires Sum(KidSizes(env, a)) <= env.PMax() && Sum(KidSizes(env, b)) <= env.PMax()
    ensures var row, n := JoinKids(a, b), |a|;
            && (4 * Sum(KidSizes(env, a)) < env.PMax() ==>
                 Sum(KidSizes(env, row[..n + 1])) <= env.PMax() && Sum(KidSizes(env, row[n + 1..])) <= env.PMax())
            && (4 * Sum(KidSizes(env, b)) < env.PMax() ==>
                 Sum(KidSizes(env, row[..n - 1])) <= env.PMax() && Sum(KidSizes(env, row[n - 1..])) <= env.PMax())
  {
    var row, n := JoinKids(a, b), |a|;
    var mid := row[n];
    KidSizeBound(env, mid);
    KidSizeBound(env, a[n - 1]);
    KidSizeBound(env, b[0]);
    FirstSize(env, b);
    assert row[..n + 1] == a + [mid] && row[n + 1..] == b[1..];
    assert row[..n - 1] == a[..n - 1] && row[n - 1..] == [a[n - 1]] + ([mid] + b[1..]);
    assert a == a[..n - 1] + [a[n - 1]];
    LastSize(env, a, mid);
    LastSize(env, a[..n - 1], a[n - 1]);
    FirstSize(env, [a[n - 1]] + ([mid] + b[1..]));
    FirstSize(env, [mid] + b[1..]);
  }

  lemma {:induction false} LastSize(env: Env, kids: seq<Kid>, kid: Kid)
    ensures Sum(KidSizes(env, kids + [kid])) == Sum(KidSizes(env, kids)) + KidSize(env, kid)
  {
    KidSizesAppend(env, kids, [kid]);
    SumAppend(KidSizes(env, kids), KidSizes(env, [kid]));
    FirstSize(env, [kid]);
  }

  lemma {:induction false} MoveFits(env: Env, left: Tree, right: Tree, x: Key, d: nat, p: Pool)
    requires env.Ok() && Neighbours(env, left, right, x, d)
    ensures var e := MoveLeft(env, left, right, p);
            Underfull(env, left) && CanSpare(env, right) ==>
            e.Moved? && Stores(env, Split(e.left, e.sep, e.right), Flat(left) + Flat(right), d)
    ensures var e := MoveRight(env, left, right, p);
            Underfull(env, right) && CanSpare(env, left) ==>
            e.Moved? && Stores(env, Split(e.left, e.sep, e.right), Flat(left) + Flat(right), d)
  {
    hide KidsOk, ItemsOk, Below, AtLeast, Sum, KidSizes, ItemSizes, PageFill, Stores, TouchPage, Divide, FlatKids;
    if Underfull(env, left) && CanSpare(env, right) {
      UnderfullIsSmall(env, left, d);
      var (rpg, p1) := TouchPage(right.pg, p);
      var (lpg, p2) := TouchPage(left.pg, p1);
      var s := NumKeys(left) + 1;
      if d == 1 { LeafMoveFits(env, lpg, left, rpg, right, s, x, p2); } else { BranchMoveFits(env, lpg, left, rpg, right, s, x, d, p2); }
    }
    if Underfull(env, right) && CanSpare(env, left) {
      UnderfullIsSmall(env, right, d);
      var (lpg, p1) := TouchPage(left.pg, p);
      var (rpg, p2) := TouchPage(right.pg, p1);
      var s := NumKeys(left) - 1;
      if d == 1 { LeafMoveFits(env, lpg, left, rpg, right, s, x, p2); } else { BranchMoveFits(env, lpg, left, rpg, right, s, x, d, p2); }
    }
  }

  // ---- The page above ------------------------------------------------------------------------

  /** A branch without its child m is still in order. */
  lemma {:induction false} WithoutKid(env: Env, kids: seq<Kid>, m: nat, d: nat)
    requires KidsOk(env, kids, d) && 0 < m < |kids|
    ensures KidsOk(env, kids[..m] + kids[m + 1..], d)
  {
    hide GoodTree, Below, AtLeast;
    var rest := kids[..m] + kids[m + 1..];
    assert forall j :: 0 <= j < |rest| ==> rest[j] == if j < m then kids[j] else kids[j + 1];
  }

  /** The bindings of two neighbouring children fit the slot of the first once the second is gone. */
  lemma {:induction false} PairInSlot(kids: seq<Kid>, m: nat, a: seq<Entry>, b: seq<Entry>)
    requires 0 < m < |kids| && forall j :: 0 < j < |kids| ==> kids[j].sep.At?
    requires InSlot(kids, m - 1, a) && InSlot(kids, m, b)
    ensures InSlot(kids[..m] + kids[m + 1..], m - 1, a + b)
  {
    var rest := kids[..m] + kids[m + 1..];
    assert forall j :: 0 <= j < |rest| ==> rest[j] == if j < m then kids[j] else kids[j + 1];
    forall j | 0 < j < |rest| ensures j <= m - 1 ==> AtLeast(a + b, rest[j].sep.key)
      ensures j > m - 1 ==> Below(a + b, rest[j].sep.key)
    {
      BelowAppend(a, b, rest[j].sep.key);
    }
  }

  lemma {:induction false} PairFlat(kids: seq<Kid>, m: nat)
    requires 0 < m < |kids|
    ensures FlatKids(kids) ==
            FlatKids(kids[..m - 1]) + (Flat(kids[m - 1].sub) + Flat(kids[m].sub)) + FlatKids(kids[m + 1..])
  {
    hide FlatKids;
    FlatSplit(kids, m);
    FlatSplit(kids[..m], m - 1);
    FlatEmpty();
    assert kids[..m][..m - 1] == kids[..m - 1] && kids[..m][m..] == [];
    assert FlatKids(kids[..m - 1]) + Flat(kids[m - 1].sub) + [] + Flat(kids[m].sub) ==
           FlatKids(kids[..m - 1]) + (Flat(kids[m - 1].sub) + Flat(kids[m].sub));
  }

  /** Where the pair is once its second child is taken out. */
  lemma {:induction false} RestParts(env: Env, kids: seq<Kid>, m: nat, sub: Tree)
    requires 0 < m < |kids|
    ensures var rest := kids[..m] + kids[m + 1..]; var rest1 := rest[m - 1 := Kid(rest[m - 1].sep, sub)];
            && rest[..m - 1] == kids[..m - 1] && rest[m..] == kids[m + 1..]
            && rest1 == kids[..m - 1] + [Kid(kids[m - 1].sep, sub)] + kids[m + 1..]
            && Sum(KidSizes(env, rest1)) == Sum(KidSizes(env, kids)) - KidSize(env, kids[m])
            && forall kid :: rest1[..m] + [kid] + rest1[m..] == kids[m - 1 := Kid(kids[m - 1].sep, sub)][m := kid]
  {
    hide Sum, KidSizes, KidSize;
    var rest := kids[..m] + kids[m + 1..];
    assert rest[..m] + [kids[m]] + rest[m..] == kids;
    InsertedKidSum(env, rest, m, kids[m]);
    SameSizes(env, rest, m - 1, sub);
  }

  /** Two neighbouring children become one. */
  lemma {:induction false} MergedKids(env: Env, pg: Pgno, kids: seq<Kid>, m: nat, t: Tree, es: seq<Entry>, d: nat)
    requires env.Ok() && KidsOk(env, kids, d) && 0 < m < |kids| && Sum(KidSizes(env, kids)) <= env.PMax()
    requires GoodTree(env, t, d) && Flat(t) == es && InSlot(kids[..m] + kids[m + 1..], m - 1, es)
    ensures var kids' := kids[..m - 1] + [Kid(kids[m - 1].sep, t)] + kids[m + 1..];
            && KidsOk(env, kids', d) && Sum(KidSizes(env, kids')) <= env.PMax()
            && FlatKids(kids') == FlatKids(kids[..m - 1]) + es + FlatKids(kids[m + 1..])
  {
    hide KidsOk, GoodTree, FlatKids, Sum, KidSizes, KidSize;
    var rest := kids[..m] + kids[m + 1..];
    RestParts(env, kids, m, t);
    WithoutKid(env, kids, m, d);
    ReplacedKids(env, rest, m - 1, t, d);
    ReplacedFlat(rest, m - 1, t);
    KidSizeBound(env, kids[m]);
  }

  /** Two neighbouring children share their bindings anew, with a new separator between them. */
  lemma {:induction false} MovedKids(env: Env, pg: Pgno, kids: seq<Kid>, m: nat, l: Tree, sep: Key, r: Tree, es: seq<Entry>, d: nat)
    requires env.Ok() && KidsOk(env, kids, d) && 0 < m < |kids| && Sum(KidSizes(env, kids)) <= env.PMax()
    requires Stores(env, Split(l, sep, r), es, d) && InSlot(kids[..m] + kids[m + 1..], m - 1, es)
    ensures var kids' := kids[m - 1 := Kid(kids[m - 1].sep, l)][m := Kid(At(sep), r)];
            && KidsOk(env, kids', d)
            && FlatKids(kids') == FlatKids(kids[..m - 1]) + es + FlatKids(kids[m + 1..])
    ensures var kids' := kids[m - 1 := Kid(kids[m - 1].sep, l)][m := Kid(At(sep), r)];
            KeyFits(env, pg, kids, m, sep) ==> GoodTree(env, Branch(pg, kids'), d + 1)
    ensures var rest := kids[..m - 1] + [Kid(kids[m - 1].sep, l)] + kids[m + 1..];
            && Sum(KidSizes(env, rest)) <= env.PMax()
            && rest[..m] + [Kid(At(sep), r)] + rest[m..] == kids[m - 1 := Kid(kids[m - 1].sep, l)][m := Kid(At(sep), r)]
            && (!KeyFits(env, pg, kids, m, sep) ==> Sum(KidSizes(env, rest)) + KidSize(env, Kid(At(sep), r)) > env.PMax())
  {
    hide KidsOk, GoodTree, FlatKids, Sum, KidSizes, Below, AtLeast, InSlot;
    var rest := kids[..m] + kids[m + 1..];
    var rest1 := rest[m - 1 := Kid(rest[m - 1].sep, l)];
    var kids' := kids[m - 1 := Kid(kids[m - 1].sep, l)][m := Kid(At(sep), r)];
    RestParts(env, kids, m, l);
    WithoutKid(env, kids, m, d);
    SplitKids(env, rest, m - 1, l, sep, r, d);
    SplitFlat(rest, m - 1, l, sep, r);
    assert rest1[..m] + [Kid(At(sep), r)] + rest1[m..] == kids';
    InsertedKidSum(env, rest1, m, Kid(At(sep), r));
    KidSizeBound(env, kids[m]);
    if KeyFits(env, pg, kids, m, sep) { BranchGood(env, pg, kids', d); }
  }

  /** The outcome holds exactly the bindings `es`; if a node was lost only the top page may be short of one. */
  ghost predicate Removes(env: Env, r: Shrunk, es: seq<Entry>, d: nat) {
    match r
    case Shrunk(t, lost, _) => Flat(t) == es && (if lost then Weak(env, t, d) else GoodTree(env, t, d))
    case Swollen(l, s, r, _) => Stores(env, Split(l, s, r), es, d)
    case NoSpace => true
    case Broken => false
  }

  lemma {:induction false} OwnSlot(env: Env, kids: seq<Kid>, i: nat, d: nat)
    requires KidsOk(env, kids, d) && i < |kids|
    ensures InSlot(kids, i, Flat(kids[i].sub))
  {
  }

  /** The pair of children mdb_rebalance works on, and where it lies in the page above. */
  lemma {:induction false} PairOf(env: Env, kids: seq<Kid>, i: nat, sub: Tree, m: nat, d: nat)
    requires KidsOk(env, kids, d) && i < |kids| && 0 < m < |kids| && (m == i || m == i + 1)
    requires Weak(env, sub, d) && InSlot(kids, i, Flat(sub))
    ensures var kids' := kids[i := Kid(kids[i].sep, sub)]; var left, right := kids'[m - 1].sub, kids'[m].sub;
            && kids[m].sep.At? && Neighbours(env, left, right, kids[m].sep.key, d)
            && InSlot(kids[..m] + kids[m + 1..], m - 1, Flat(left) + Flat(right))
            && FlatKids(kids[..m - 1]) + (Flat(left) + Flat(right)) + FlatKids(kids[m + 1..]) ==
               FlatKids(kids[..i]) + Flat(sub) + FlatKids(kids[i + 1..])
  {
    hide GoodTree, FlatKids, Weak, Below, AtLeast, Flat;
    var kids' := kids[i := Kid(kids[i].sep, sub)];
    var o := if m == i then m - 1 else m;
    GoodIsWeak(env, kids[o].sub, d);
    OwnSlot(env, kids, o, d);
    PairInSlot(kids, m, Flat(kids'[m - 1].sub), Flat(kids'[m].sub));
    PairFlat(kids', m);
    ReplacedFlat(kids, i, sub);
    assert kids'[..m - 1] == kids[..m - 1] && kids'[m + 1..] == kids[m + 1..];
  }

  lemma {:induction false} RebalanceMerges(env: Env, pg: Pgno, kids: seq<Kid>, i: nat, sub: Tree, m: nat, p: Pool, d: nat)
    requires env.Ok() && KidsOk(env, kids, d) && i < |kids| && Sum(KidSizes(env, kids)) <= env.PMax()
    requires m == (if i == 0 then 1 else i) && m < |kids|
    requires Weak(env, sub, d) && InSlot(kids, i, Flat(sub)) && Underfull(env, sub)
    requires !CanSpare(env, kids[if i == 0 then 1 else i - 1].sub)
    ensures Removes(env, Rebalance(env, pg, kids[i := Kid(kids[i].sep, sub)], i, p),
                    FlatKids(kids[..i]) + Flat(sub) + FlatKids(kids[i + 1..]), d + 1)
  {
    hide KidsOk, GoodTree, FlatKids, Below, AtLeast, InSlot, Sum, KidSizes, Merge, Underfull, CanSpare, Neighbours;
    var kids' := kids[i := Kid(kids[i].sep, sub)];
    var left, right := kids'[m - 1].sub, kids'[m].sub;
    PairOf(env, kids, i, sub, m, d);
    MergeFits(env, left, right, kids[m].sep.key, d, p);
    MergedKids(env, pg, kids, m, Merge(env, left, right, p).t, Flat(left) + Flat(right), d);
    assert kids'[..m - 1] == kids[..m - 1] && kids'[m + 1..] == kids[m + 1..];
  }

  lemma {:induction false} KeyFitsSame(env: Env, pg: Pgno, kids: seq<Kid>, i: nat, sub: Tree, m: nat, sep: Key)
    requires i < |kids| && m < |kids|
    ensures KeyFits(env, pg, kids[i := Kid(kids[i].sep, sub)], m, sep) == KeyFits(env, pg, kids, m, sep)
  {
    SameSizes(env, kids, i, sub);
  }

  lemma {:induction false} RebalanceMoves(env: Env, pg: Pgno, kids: seq<Kid>, i: nat, sub: Tree, m: nat, p: Pool, d: nat)
    requires env.Ok() && KidsOk(env, kids, d) && i < |kids| && Sum(KidSizes(env, kids)) <= env.PMax()
    requires m == (if i == 0 then 1 else i) && m < |kids|
    requires Weak(env, sub, d) && InSlot(kids, i, Flat(sub)) && Underfull(env, sub)
    requires CanSpare(env, kids[if i == 0 then 1 else i - 1].sub)
    ensures Removes(env, Rebalance(env, pg, kids[i := Kid(kids[i].sep, sub)], i, p),
                    FlatKids(kids[..i]) + Flat(sub) + FlatKids(kids[i + 1..]), d + 1)
  {
    hide KidsOk, GoodTree, FlatKids, Below, AtLeast, InSlot, Sum, KidSizes, MoveLeft, MoveRight, Underfull, CanSpare, Neighbours, KeyFits, SplitBranch;
    var kids' := kids[i := Kid(kids[i].sep, sub)];
    var left, right := kids'[m - 1].sub, kids'[m].sub;
    PairOf(env, kids, i, sub, m, d);
    MoveFits(env, left, right, kids[m].sep.key, d, p);
    var e := if i == 0 then MoveLeft(env, left, right, p) else MoveRight(env, left, right, p);
    KeyFitsSame(env, pg, kids, i, sub, m, e.sep);
    MovedKids(env, pg, kids, m, e.left, e.sep, e.right, Flat(left) + Flat(right), d);
    assert kids'[m - 1 := Kid(kids'[m - 1].sep, e.left)][m := Kid(At(e.sep), e.right)] ==
           kids[m - 1 := Kid(kids[m - 1].sep, e.left)][m := Kid(At(e.sep), e.right)];
    assert kids'[..m - 1] == kids[..m - 1] && kids'[m + 1..] == kids[m + 1..];
    if !KeyFits(env, pg, kids, m, e.sep) {
      var rest := kids[..m - 1] + [Kid(kids[m - 1].sep, e.left)] + kids[m + 1..];
      SplitBranchStores(env, pg, rest, m, e.sep, e.right, e.p, d);
    }
  }

  /** The page above a child that was deleted from holds what it held around the child's bindings. */
  lemma {:induction false} SettleCorrect(env: Env, pg: Pgno, kids: seq<Kid>, i: nat, sub: Tree, lost: bool, p: Pool, d: nat)
    requires env.Ok() && KidsOk(env, kids, d) && i < |kids| && Sum(KidSizes(env, kids)) <= env.PMax()
    requires |kids| >= 2 && InSlot(kids, i, Flat(sub))
    requires if lost then Weak(env, sub, d) else GoodTree(env, sub, d)
    ensures Removes(env, Settle(env, pg, kids, i, sub, lost, p),
                    FlatKids(kids[..i]) + Flat(sub) + FlatKids(kids[i + 1..]), d + 1)
  {
    hide KidsOk, GoodTree, FlatKids, InSlot, Sum, KidSizes, Rebalance, CanSpare, Weak, PageFill;
    if lost && Underfull(env, sub) {
      var m := if i == 0 then 1 else i;
      if CanSpare(env, kids[if i == 0 then 1 else i - 1].sub) {
        RebalanceMoves(env, pg, kids, i, sub, m, p, d);
      } else {
        RebalanceMerges(env, pg, kids, i, sub, m, p, d);
      }
    } else {
      if lost { WeakIsGood(env, sub, d); }
      ReplacedKids(env, kids, i, sub, d);
      SameSizes(env, kids, i, sub);
      BranchGood(env, pg, kids[i := Kid(kids[i].sep, sub)], d);
      ReplacedFlat(kids, i, sub);
    }
  }

  lemma {:induction false} RemoveChild(t: Tree, k: Key)
    requires t.Branch? && Sorted(t)
    ensures var i := ChildAt(t.kids, k);
            Remove(Flat(t), k) == FlatKids(t.kids[..i]) + Remove(Flat(t.kids[i].sub), k) + FlatKids(t.kids[i + 1..])
  {
    hide Remove, FlatKids;
    var i := ChildAt(t.kids, k);
    ChildDivides(t, k);
    FlatSplit(t.kids, i);
    RemoveMiddle(FlatKids(t.kids[..i]), Flat(t.kids[i].sub), FlatKids(t.kids[i + 1..]), k);
  }

  lemma {:induction false} RemoveInSlot(env: Env, kids: seq<Kid>, i: nat, k: Key, d: nat)
    requires KidsOk(env, kids, d) && i < |kids|
    ensures InSlot(kids, i, Remove(Flat(kids[i].sub), k))
  {
    forall x ensures AtLeast(Flat(kids[i].sub), x) ==> AtLeast(Remove(Flat(kids[i].sub), k), x)
      ensures Below(Flat(kids[i].sub), x) ==> Below(Remove(Flat(kids[i].sub), k), x)
    {
      RemoveBounds(Flat(kids[i].sub), k, x);
    }
    hide Below, AtLeast, GoodTree, Remove;
  }

  lemma {:induction false} DelLeaf(env: Env, t: Tree, k: Key, p: Pool)
    requires env.Ok() && t.Leaf? && ItemsOk(env, t.items) && Lookup(Flat(t), k) != Missing
    ensures Removes(env, Del(env, t, k, p), Remove(Flat(t), k), 1)
  {
    hide Ascending, Remove, Sum, ItemSizes, Lookup, Position;
    var i := Position(t.items, k);
    LookupItems(t.items, k);
    RemoveItem(t.items, k);
    RemovedItemOk(env, t.items, i);
  }

  /**
   Deletion refines map removal: unless a page fills up, the tree, or the two halves it split
   into, hold the old bindings without the one of the key; they are in good order and as deep as
   before, except that a top page that lost a node may be short of one.
   */
  lemma {:induction false} DelCorrect(env: Env, t: Tree, k: Key, p: Pool, d: nat)
    requires env.Ok() && GoodTree(env, t, d) && Searchable(t) && Lookup(Flat(t), k) != Missing
    ensures Removes(env, Del(env, t, k, p), Remove(Flat(t), k), d)
    decreases t
  {
    match t
    case Leaf(pg, items) =>
      GoodItems(env, t, d);
      DelLeaf(env, t, k, p);
    case Branch(pg, kids) =>
      var i := ChildAt(kids, k);
      var kid := kids[i];
      assert kid.sub < kid;
      GoodKids(env, t, d);
      LookupChild(t, k);
      DelCorrect(env, kid.sub, k, p, d - 1);
      RemoveChild(t, k);
      RemoveInSlot(env, kids, i, k, d - 1);
      hide GoodTree, KidsOk, InSlot, Above, Removes, Sum, KidSizes, FlatKids;
      AboveCorrect(env, pg, kids, i, Del(env, kid.sub, k, p), Remove(Flat(kid.sub), k), d - 1);
  }

  lemma {:induction false} AboveCorrect(env: Env, pg: Pgno, kids: seq<Kid>, i: nat, r: Shrunk, es: seq<Entry>, d: nat)
    requires env.Ok() && KidsOk(env, kids, d) && i < |kids| && Sum(KidSizes(env, kids)) <= env.PMax()
    requires d > 0 && |kids| >= 2 && InSlot(kids, i, es) && Removes(env, r, es, d)
    ensures Removes(env, Above(env, pg, kids, i, r), FlatKids(kids[..i]) + es + FlatKids(kids[i + 1..]), d + 1)
  {
    hide GoodTree, KidsOk, InSlot, Sum, KidSizes, FlatKids, Settle, AddKid, Weak, Below, AtLeast;
    match r
    case Shrunk(sub, lost, p) => SettleCorrect(env, pg, kids, i, sub, lost, p, d);
    case Swollen(left, sep, right, p) =>
      BranchPutCorrect(env, Branch(pg, kids), i, Split(left, sep, right), es, p, d + 1);
    case _ =>
  }
}
