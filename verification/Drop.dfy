/**
 Dropping a table: mdb_drop0 walks the tree level by level, from the leaves up, and puts every page
 on the free list (mdb.c:9152-9232).
 */
module Drop {
  import opened BTree
  import opened PagePool
  import opened BTreePages
  import Cursor

  // ---- The pages of a level ------------------------------------------------------------------

  function Subs(t: Tree): (ts: seq<Tree>)
    ensures |ts| == if t.Branch? then |t.kids| else 0
    ensures t.Branch? ==> forall i :: 0 <= i < |ts| ==> ts[i] == t.kids[i].sub
  {
    if t.Leaf? then [] else seq(|t.kids|, i requires 0 <= i < |t.kids| => t.kids[i].sub)
  }

  ghost function Expand(ts: seq<Tree>): seq<Tree> {
    if ts == [] then [] else Subs(ts[0]) + Expand(ts[1..])
  }

  /** The pages at a depth, from left to right; the root is at depth 1. */
  ghost function Level(root: Tree, n: nat): seq<Tree> {
    if n <= 1 then [root] else Expand(Level(root, n - 1))
  }

  lemma {:induction false} ExpandAppend(a: seq<Tree>, b: seq<Tree>)
    ensures Expand(a + b) == Expand(a) + Expand(b)
  {
    if a == [] {
      assert a + b == b;
    } else {
      assert (a + b)[0] == a[0] && (a + b)[1..] == a[1..] + b;
      ExpandAppend(a[1..], b);
    }
  }

  lemma ExpandOne(t: Tree)
    ensures Expand([t]) == Subs(t)
  {
    assert [t][1..] == [];
  }

  ghost function EntryCount(ts: seq<Tree>): nat {
    if ts == [] then 0 else |Flat(ts[0])| + EntryCount(ts[1..])
  }

  lemma {:induction false} CountAppend(a: seq<Tree>, b: seq<Tree>)
    ensures EntryCount(a + b) == EntryCount(a) + EntryCount(b)
  {
    if a == [] {
      assert a + b == b;
    } else {
      assert (a + b)[0] == a[0] && (a + b)[1..] == a[1..] + b;
      CountAppend(a[1..], b);
    }
  }

  lemma {:induction false} CountOfKids(t: Tree, n: nat)
    requires t.Branch? && n <= |t.kids|
    ensures EntryCount(Subs(t)[..n]) == |FlatKids(t.kids[..n])|
  {
    hide Flat, FlatKids;
    var s := Subs(t);
    if n > 0 {
      CountOfKids(t, n - 1);
      assert s[..n] == s[..n - 1] + [s[n - 1]];
      CountAppend(s[..n - 1], [s[n - 1]]);
      assert [s[n - 1]][1..] == [];
      FlatSplit(t.kids[..n], n - 1);
      assert t.kids[..n][..n - 1] == t.kids[..n - 1] && t.kids[..n][n..] == [];
      Cursor.NoKids();
    } else {
      assert t.kids[..0] == [] && s[..0] == [];
      Cursor.NoKids();
    }
  }

  ghost predicate AllBranches(ts: seq<Tree>) {
    forall i :: 0 <= i < |ts| ==> ts[i].Branch?
  }

  lemma {:induction false} CountExpand(ts: seq<Tree>)
    requires AllBranches(ts)
    ensures EntryCount(Expand(ts)) == EntryCount(ts)
  {
    hide Flat;
    if ts != [] {
      CountExpand(ts[1..]);
      CountAppend(Subs(ts[0]), Expand(ts[1..]));
      CountOfKids(ts[0], |ts[0].kids|);
      FlatBranch(ts[0]);
      assert Subs(ts[0])[..|ts[0].kids|] == Subs(ts[0]) && ts[0].kids[..|ts[0].kids|] == ts[0].kids;
    }
  }

  lemma FlatBranch(t: Tree)
    requires t.Branch?
    ensures Flat(t) == FlatKids(t.kids)
  {
  }

  // ---- A well-formed tree, level by level ----------------------------------------------------

  ghost predicate AllAt(ts: seq<Tree>, d: nat) {
    forall i :: 0 <= i < |ts| ==> Sorted(ts[i]) && Uniform(ts[i], d)
  }

  lemma {:induction false} AllAtExpand(ts: seq<Tree>, d: nat)
    requires AllAt(ts, d) && d > 1
    ensures AllBranches(ts) && AllAt(Expand(ts), d - 1)
  {
    if ts != [] {
      AllAtExpand(ts[1..], d);
      assert Sorted(ts[0]) && Uniform(ts[0], d);
      forall i | 0 <= i < |Subs(ts[0])| ensures Sorted(Subs(ts[0])[i]) && Uniform(Subs(ts[0])[i], d - 1) {
        var kid := ts[0].kids[i];
        assert kid.sub < kid;
      }
      assert forall i :: 0 <= i < |ts| ==> ts[i] == if i == 0 then ts[0] else ts[1..][i - 1];
    }
  }

  lemma {:induction false} LevelAt(root: Tree, n: nat, d: nat)
    requires Sorted(root) && Uniform(root, d) && 0 < n <= d
    ensures AllAt(Level(root, n), d - n + 1) && EntryCount(Level(root, n)) == |Flat(root)|
    ensures n < d ==> AllBranches(Level(root, n))
  {
    hide Flat, Sorted, Uniform;
    if n > 1 {
      LevelAt(root, n - 1, d);
      AllAtExpand(Level(root, n - 1), d - n + 2);
      CountExpand(Level(root, n - 1));
    } else {
      assert [root][1..] == [];
    }
    if n < d { AllAtExpand(Level(root, n), d - n + 1); }
  }

  /** The page on top of a stack is one of its level, with the bindings before it in the pages before it. */
  lemma {:induction false} StackInLevel(root: Tree, pg: seq<Tree>, ki: seq<nat>, n: nat, d: nat) returns (j: nat)
    requires Cursor.OnStack(root, pg, ki, n) && Sorted(root) && Uniform(root, d) && n <= d
    ensures j < |Level(root, n)| && Level(root, n)[j] == pg[n - 1]
    ensures EntryCount(Level(root, n)[..j]) == Cursor.Start(pg, ki, n)
  {
    hide Flat, FlatKids, Sorted, Uniform, Expand, AllAt;
    if n <= 1 {
      j := 0;
      assert [root][..0] == [];
    } else {
      var i := StackInLevel(root, pg, ki, n - 1, d);
      var up, p, k := Level(root, n - 1), pg[n - 2], ki[n - 2];
      var a, c := up[..i], up[i + 1..];
      assert up == a + ([p] + c);
      ExpandAppend(a, [p] + c);
      ExpandAppend([p], c);
      ExpandOne(p);
      var s := Subs(p);
      var low := Expand(up);
      assert low == Expand(a) + (s + Expand(c));
      j := |Expand(a)| + k;
      assert low[j] == s[k];
      assert low[..j] == Expand(a) + s[..k];
      CountAppend(Expand(a), s[..k]);
      CountOfKids(p, k);
      LevelAt(root, n - 1, d);
      CountExpand(a);
    }
  }

  // ---- What the pages of a level give up -----------------------------------------------------

  ghost function Pgs(ts: seq<Tree>): multiset<Pgno> {
    if ts == [] then multiset{} else multiset{ts[0].pg} + Pgs(ts[1..])
  }

  ghost function Shapes(ts: seq<Tree>): multiset<Pgno> {
    if ts == [] then multiset{} else Shape(ts[0]).pages + Shapes(ts[1..])
  }

  /** What mdb_drop0 frees when it visits a page: overflow runs on a leaf, the children's page numbers on a branch. */
  ghost function Given(t: Tree): multiset<Pgno> {
    match t
    case Leaf(_, items) => ItemsUse(items).pages
    case Branch(_, _) => Pgs(Subs(t))
  }

  ghost function Gives(ts: seq<Tree>): multiset<Pgno> {
    if ts == [] then multiset{} else Given(ts[0]) + Gives(ts[1..])
  }

  lemma {:induction false} GivesAppend(a: seq<Tree>, b: seq<Tree>)
    ensures Gives(a + b) == Gives(a) + Gives(b)
  {
    if a == [] {
      assert a + b == b;
    } else {
      assert (a + b)[0] == a[0] && (a + b)[1..] == a[1..] + b;
      GivesAppend(a[1..], b);
    }
  }

  lemma {:induction false} PgsAppend(a: seq<Tree>, b: seq<Tree>)
    ensures Pgs(a + b) == Pgs(a) + Pgs(b) && Shapes(a + b) == Shapes(a) + Shapes(b)
  {
    hide Shape;
    if a == [] {
      assert a + b == b;
    } else {
      assert (a + b)[0] == a[0] && (a + b)[1..] == a[1..] + b;
      PgsAppend(a[1..], b);
    }
  }

  lemma {:induction false} ShapeOfKids(kids: seq<Kid>)
    ensures Shapes(Subs(Branch(0, kids))) == KidsUse(kids).pages
  {
    hide Shape;
    var s := Subs(Branch(0, kids));
    if kids != [] {
      ShapeOfKids(kids[1..]);
      assert s[1..] == Subs(Branch(0, kids[1..]));
    }
  }

  lemma ShapeOf(t: Tree)
    ensures t.Branch? ==> Shape(t).pages == multiset{t.pg} + Shapes(Subs(t))
    ensures t.Leaf? ==> Shape(t).pages == multiset{t.pg} + Given(t)
  {
    if t.Branch? {
      ShapeOfKids(t.kids);
      assert Subs(Branch(0, t.kids)) == Subs(t);
    }
  }

  /** A level of branches: what its pages give up are the numbers of the pages of the next level. */
  lemma {:induction false} BranchLevel(ts: seq<Tree>)
    requires AllBranches(ts)
    ensures Shapes(ts) == Pgs(ts) + Shapes(Expand(ts)) && Gives(ts) == Pgs(Expand(ts))
  {
    hide Shape, Subs;
    if ts != [] {
      BranchLevel(ts[1..]);
      ShapeOf(ts[0]);
      PgsAppend(Subs(ts[0]), Expand(ts[1..]));
    }
  }

  lemma {:induction false} LeafLevel(ts: seq<Tree>)
    requires forall i :: 0 <= i < |ts| ==> ts[i].Leaf?
    ensures Shapes(ts) == Pgs(ts) + Gives(ts)
  {
    hide Shape;
    if ts != [] {
      LeafLevel(ts[1..]);
      ShapeOf(ts[0]);
    }
  }

  /** What is freed when the walk comes to a level: everything below, but for the pages of the next level themselves. */
  ghost predicate Lower(root: Tree, n: nat, d: nat, freed: multiset<Pgno>) {
    if n >= d then freed == multiset{}
    else freed + Pgs(Level(root, n + 1)) == Shapes(Level(root, n + 1))
  }

  lemma {:induction false} LevelDone(root: Tree, n: nat, d: nat, freed: multiset<Pgno>)
    requires Sorted(root) && Uniform(root, d) && 0 < n <= d && Lower(root, n, d, freed)
    ensures freed + Gives(Level(root, n)) + Pgs(Level(root, n)) == Shapes(Level(root, n))
  {
    hide Shapes, Gives, Pgs, Sorted, Uniform;
    LevelAt(root, n, d);
    if n < d {
      BranchLevel(Level(root, n));
      assert Level(root, n + 1) == Expand(Level(root, n));
    } else {
      LeavesAt(Level(root, n));
      LeafLevel(Level(root, n));
    }
  }

  lemma LeavesAt(ts: seq<Tree>)
    requires AllAt(ts, 1)
    ensures forall i :: 0 <= i < |ts| ==> ts[i].Leaf?
  {
    forall i | 0 <= i < |ts| ensures ts[i].Leaf? { assert Uniform(ts[i], 1); }
  }

  lemma GivesNext(ts: seq<Tree>, j: nat)
    requires j < |ts|
    ensures Gives(ts[..j + 1]) == Gives(ts[..j]) + Given(ts[j])
  {
    hide Given;
    assert ts[..j + 1] == ts[..j] + [ts[j]];
    GivesAppend(ts[..j], [ts[j]]);
    assert [ts[j]][1..] == [];
  }

  /** Positions in a level are told apart by the bindings before them, as no page is empty. */
  lemma {:induction false} SamePlace(ts: seq<Tree>, d: nat, i: nat, j: nat)
    requires AllAt(ts, d) && i <= j <= |ts|
    ensures EntryCount(ts[..i]) <= EntryCount(ts[..j])
    ensures i < j ==> EntryCount(ts[..i]) < EntryCount(ts[..j])
    decreases j - i
  {
    hide Flat, Sorted;
    if i < j {
      SamePlace(ts, d, i, j - 1);
      assert ts[..j] == ts[..j - 1] + [ts[j - 1]];
      CountAppend(ts[..j - 1], [ts[j - 1]]);
      assert [ts[j - 1]][1..] == [];
      FlatNonEmpty(ts[j - 1]);
    }
  }

  // ---- mdb_drop0 -----------------------------------------------------------------------------

  /** Free what a leaf gives up (mdb_midl_append_range). */
  method FreeRuns(items: seq<Item>) returns (freed: seq<Pgno>)
    ensures multiset(freed) == ItemsUse(items).pages
  {
    hide ItemsUse;
    freed := [];
    NoItems();
    assert items[..0] == [];
    var i := 0;
    while i < |items|
      invariant i <= |items| && multiset(freed) == ItemsUse(items[..i]).pages
    {
      assert items[..i + 1] == items[..i] + [items[i]];
      ItemsUseAppend(items[..i], [items[i]]);
      OneItem(items[i]);
      if items[i].store.Overflow? { freed := freed + Run(items[i].store.pg, items[i].store.n); }
      i := i + 1;
    }
    assert items[..i] == items;
  }

  lemma NoItems()
    ensures ItemsUse([]).pages == multiset{}
  {
  }

  lemma OneItem(it: Item)
    ensures ItemsUse([it]).pages == if it.store.Overflow? then multiset(Run(it.store.pg, it.store.n)) else multiset{}
  {
    assert [it][1..] == [];
    assert ItemsUse([it]) == Plus(ItemUse(it), Nothing);
  }

  lemma OnePage(t: Tree)
    ensures Pgs([t]) == multiset{t.pg} && Pgs([]) == multiset{}
  {
    assert [t][1..] == [];
  }

  /** The loop over the nodes of a branch (mdb_midl_xappend). */
  method FreeKids(mp: Tree) returns (freed: seq<Pgno>)
    requires mp.Branch?
    ensures multiset(freed) == Pgs(Subs(mp))
  {
    hide Pgs;
    freed := [];
    ghost var s := Subs(mp);
    OnePage(mp);
    assert s[..0] == [];
    var i := 0;
    while i < |mp.kids|
      invariant i <= |mp.kids| && multiset(freed) == Pgs(s[..i])
    {
      assert s[..i + 1] == s[..i] + [s[i]];
      PgsAppend(s[..i], [s[i]]);
      OnePage(s[i]);
      freed := freed + [mp.kids[i].sub.pg];
      i := i + 1;
    }
    assert s[..i] == s;
  }

  /** Free what a page gives up. */
  method FreePage(mp: Tree) returns (freed: seq<Pgno>)
    ensures multiset(freed) == Given(mp)
  {
    if mp.Leaf? { freed := FreeRuns(mp.items); } else { freed := FreeKids(mp); }
  }

  function Zeros(): (z: seq<nat>)
    ensures |z| == Cursor.CURSOR_STACK && forall i :: 0 <= i < |z| ==> z[i] == 0
  {
    seq(Cursor.CURSOR_STACK, _ => 0)
  }

  /** The pages down to the first leaf. */
  ghost predicate FirstPath(root: Tree, pg: seq<Tree>, d: nat) {
    |pg| == Cursor.CURSOR_STACK && Cursor.OnStack(root, pg, Zeros(), d)
  }

  lemma {:induction false} StartZero(root: Tree, pg: seq<Tree>, ki: seq<nat>, n: nat, d: nat)
    requires Cursor.OnStack(root, pg, ki, n) && Sorted(root) && Uniform(root, d) && Cursor.Start(pg, ki, n) == 0
    ensures forall i :: 0 <= i < n - 1 ==> ki[i] == 0
  {
    hide Flat, FlatKids, Sorted, Uniform;
    if n > 1 {
      StartZero(root, pg, ki, n - 1, d);
      Cursor.DepthOnStack(root, pg, ki, n - 1, d);
      if ki[n - 2] > 0 {
        var t := pg[n - 2];
        Cursor.ChildWithin(t, ki[n - 2] - 1);
        Cursor.DepthOnStack(root, pg[n - 1 := t.kids[ki[n - 2] - 1].sub], ki[n - 2 := ki[n - 2] - 1], n, d) by {
          Cursor.Beside(root, pg, ki, n, ki[n - 2] - 1);
        }
      }
    }
  }

  lemma {:induction false} ZeroStack(root: Tree, pg: seq<Tree>, ki: seq<nat>, mx: seq<Tree>, n: nat, d: nat)
    requires FirstPath(root, mx, d) && 0 < n <= d && |pg| == |ki| == Cursor.CURSOR_STACK
    requires forall i :: 0 <= i < n ==> pg[i] == mx[i] && ki[i] == 0
    ensures Cursor.OnStack(root, pg, ki, n) && Cursor.Start(pg, ki, n) == 0
    decreases n
  {
    if n > 1 { ZeroStack(root, pg, ki, mx, n - 1, d); }
  }

  /** Back to the first page of the level above (the resets of mc_ki and mc_pg). */
  method Rewind(mc: Cursor.Cursor, mx: seq<Tree>)
    requires mc.Placed() && mc.snum > 1 && FirstPath(mc.root, mx, mc.depth) && mc.snum <= mc.depth
    modifies mc`pg, mc`ki, mc`snum
    ensures mc.Placed() && mc.snum == old(mc.snum) - 1 && Cursor.Start(mc.pg, mc.ki, mc.snum) == 0
  {
    mc.snum := mc.snum - 1;
    mc.ki := mc.ki[0 := 0];
    var i := 1;
    while i < mc.snum
      invariant 1 <= i <= mc.snum && mc.snum == old(mc.snum) - 1 && |mc.pg| == |mc.ki| == Cursor.CURSOR_STACK && mc.pg[0] == mc.root
      invariant forall j :: 0 <= j < i ==> mc.pg[j] == mx[j] && mc.ki[j] == 0
    {
      mc.ki := mc.ki[i := 0];
      mc.pg := mc.pg[i := mx[i]];
      i := i + 1;
    }
    ZeroStack(mc.root, mc.pg, mc.ki, mx, mc.snum, mc.depth);
  }

  /** The walk stands at page j of a level: all before it and all below is freed. */
  ghost predicate Reached(root: Tree, d: nat, pg: seq<Tree>, ki: seq<nat>, n: nat, j: nat, lower: multiset<Pgno>, freed: multiset<Pgno>)
    requires 0 < n <= |pg| == |ki|
  {
    && j < |Level(root, n)| && Level(root, n)[j] == pg[n - 1]
    && EntryCount(Level(root, n)[..j]) == Cursor.Start(pg, ki, n)
    && Lower(root, n, d, lower) && freed == lower + Gives(Level(root, n)[..j])
  }

  lemma {:induction false} ReachedFirst(root: Tree, d: nat, pg: seq<Tree>, ki: seq<nat>, n: nat, freed: multiset<Pgno>)
    requires Cursor.OnStack(root, pg, ki, n) && Sorted(root) && Uniform(root, d) && n <= d
    requires Cursor.Start(pg, ki, n) == 0 && Lower(root, n, d, freed)
    ensures Reached(root, d, pg, ki, n, 0, freed, freed)
  {
    hide Flat, Sorted, Uniform, Level, AllAt;
    var j := StackInLevel(root, pg, ki, n, d);
    LevelAt(root, n, d);
    SamePlace(Level(root, n), d - n + 1, 0, j);
    assert Level(root, n)[..0] == [];
  }

  /** What is known once the page at position j has been visited, and a right sibling was found or not. */
  lemma {:induction false} ReachedNext(root: Tree, d: nat, pg: seq<Tree>, ki: seq<nat>, n: nat, j: nat, lower: multiset<Pgno>,
                                       freed: multiset<Pgno>, pg': seq<Tree>, ki': seq<nat>)
    requires Cursor.OnStack(root, pg, ki, n) && Cursor.OnStack(root, pg', ki', n) && Sorted(root) && Uniform(root, d) && n <= d
    requires Reached(root, d, pg, ki, n, j, lower, freed)
    requires Cursor.Start(pg', ki', n) == Cursor.Start(pg, ki, n) + |Flat(pg[n - 1])|
    ensures Reached(root, d, pg', ki', n, j + 1, lower, freed + Given(pg[n - 1]))
  {
    hide Flat, Sorted, Uniform, Level, AllAt, Given, Lower;
    var ts := Level(root, n);
    var k := StackInLevel(root, pg', ki', n, d);
    VisitedOne(root, d, pg, ki, n, j);
    LevelAt(root, n, d);
    if k < j + 1 { SamePlace(ts, d - n + 1, k, j + 1); } else { SamePlace(ts, d - n + 1, j + 1, k); }
    GivesNext(ts, j);
  }

  lemma {:induction false} VisitedOne(root: Tree, d: nat, pg: seq<Tree>, ki: seq<nat>, n: nat, j: nat)
    requires 0 < n <= |pg| == |ki| && j < |Level(root, n)| && Level(root, n)[j] == pg[n - 1]
    ensures EntryCount(Level(root, n)[..j + 1]) == EntryCount(Level(root, n)[..j]) + |Flat(pg[n - 1])|
  {
    hide Flat, Level;
    var ts := Level(root, n);
    assert ts[..j + 1] == ts[..j] + [ts[j]];
    CountAppend(ts[..j], [ts[j]]);
    assert [ts[j]][1..] == [];
  }

  lemma {:induction false} ReachedEnd(root: Tree, d: nat, pg: seq<Tree>, ki: seq<nat>, n: nat, j: nat, lower: multiset<Pgno>, freed: multiset<Pgno>)
    requires Cursor.OnStack(root, pg, ki, n) && Sorted(root) && Uniform(root, d) && n <= d
    requires Reached(root, d, pg, ki, n, j, lower, freed)
    requires Cursor.Start(pg, ki, n) + |Flat(pg[n - 1])| == |Flat(root)|
    ensures freed + Given(pg[n - 1]) + Pgs(Level(root, n)) == Shapes(Level(root, n))
  {
    hide Flat, Sorted, Uniform, Level, AllAt, Given, Lower, Shapes, Pgs;
    var ts := Level(root, n);
    VisitedOne(root, d, pg, ki, n, j);
    LevelAt(root, n, d);
    SamePlace(ts, d - n + 1, j + 1, |ts|);
    assert ts[..|ts|] == ts;
    GivesNext(ts, j);
    LevelDone(root, n, d, lower);
  }

  /** mdb_drop0: every page of the tree is put on the free list, exactly once. */
  method Drop0(mc: Cursor.Cursor) returns (freed: seq<Pgno>)
    requires mc.Valid()
    modifies mc
    ensures multiset(freed) == Shape(mc.root).pages
  {
    hide Flat, Sorted, Uniform, Level, AllAt, Given, Lower, Shapes, Pgs, Gives, Reached, Shape, Cursor.OnStack, Cursor.Start, FirstPath;
    mc.SearchEdge(false);
    freed := [];
    var mx := mc.pg;
    var d := mc.depth;
    FirstIs(mc.root, mc.pg, mc.ki, d);
    LowerFirst(mc.root, d);
    ReachedFirst(mc.root, d, mc.pg, mc.ki, mc.snum, multiset{});
    ghost var j, lower := 0, multiset{};
    while true
      invariant mc.Placed() && mc.depth == d && 0 < mc.snum <= d && FirstPath(mc.root, mx, d)
      invariant Reached(mc.root, d, mc.pg, mc.ki, mc.snum, j, lower, multiset(freed))
      decreases mc.snum, |Level(mc.root, mc.snum)| - j
    {
      var mp := mc.pg[mc.snum - 1];
      var more := FreePage(mp);
      Cursor.DepthOnStack(mc.root, mc.pg, mc.ki, mc.snum, d);
      InLevel(mc.root, d, mc.pg, mc.ki, mc.snum, j, lower, multiset(freed));
      ghost var pg, ki, n, was := mc.pg, mc.ki, mc.snum, multiset(freed);
      freed := freed + more;
      if mc.snum == 1 {
        Cursor.AtRoot(mc.root, pg, ki, n);
        ReachedEnd(mc.root, d, pg, ki, n, j, lower, was);
        break;
      }
      Cursor.TopIndex(mc.root, mc.pg, mc.ki, mc.snum, NumKeys(mp));
      mc.ki := mc.ki[mc.snum - 1 := NumKeys(mp)];
      var rc := mc.Sibling(true);
      if rc == Cursor.Success {
        ReachedNext(mc.root, d, pg, ki, n, j, lower, was, mc.pg, mc.ki);
        j := j + 1;
      } else {
        ReachedEnd(mc.root, d, pg, ki, n, j, lower, was);
        lower := multiset(freed);
        LowerNext(mc.root, n, d, lower);
        Rewind(mc, mx);
        j := 0;
        ReachedFirst(mc.root, d, mc.pg, mc.ki, mc.snum, lower);
      }
    }
    RootPage(mc.root);
    freed := freed + [mc.root.pg];
  }

  lemma FirstIs(root: Tree, pg: seq<Tree>, ki: seq<nat>, d: nat)
    requires |pg| == Cursor.CURSOR_STACK && Cursor.OnStack(root, pg, ki, d) && Sorted(root) && Uniform(root, d)
    requires Cursor.Start(pg, ki, d) == 0
    ensures FirstPath(root, pg, d)
  {
    StartZero(root, pg, ki, d, d);
  }

  lemma LowerFirst(root: Tree, d: nat)
    ensures Lower(root, d, d, multiset{})
  {
  }

  lemma LowerNext(root: Tree, n: nat, d: nat, freed: multiset<Pgno>)
    requires 1 < n <= d && freed + Pgs(Level(root, n)) == Shapes(Level(root, n))
    ensures Lower(root, n - 1, d, freed)
  {
  }

  lemma InLevel(root: Tree, d: nat, pg: seq<Tree>, ki: seq<nat>, n: nat, j: nat, lower: multiset<Pgno>, freed: multiset<Pgno>)
    requires 0 < n <= |pg| == |ki| && Reached(root, d, pg, ki, n, j, lower, freed)
    ensures j < |Level(root, n)|
  {
  }

  lemma RootPage(root: Tree)
    ensures Pgs(Level(root, 1)) == multiset{root.pg} && Shapes(Level(root, 1)) == Shape(root).pages
  {
    hide Shape;
    assert [root][1..] == [];
  }
}
