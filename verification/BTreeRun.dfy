/** Whole transactions: any sequence of puts and deletes on a table. */
module BTreeRun {
  import opened BTree
  import opened BTreeSearch
  import opened PagePool
  import opened BTreePut
  import opened BTreePutProof
  import opened BTreeDel
  import opened BTreeDelProof
  import opened BTreeDelPages
  import opened BTreeFull
  import opened BTreeTable
  import opened BTreeCow

  datatype Op = PutOp(key: Key, val: Val) | DelOp(key: Key)

  /** A table in a write transaction: the root, its depth and the transaction's pages. */
  datatype State = State(root: Root, depth: nat, pool: Pool)

  datatype Result = Failed | Done(state: State)

  /** What the operations mean for the map. */
  function Meant(es: seq<Entry>, op: Op): seq<Entry> {
    match op
    case PutOp(k, v) => Upsert(es, k, v)
    case DelOp(k) => Remove(es, k)
  }

  function MeantAll(es: seq<Entry>, ops: seq<Op>): seq<Entry>
    decreases ops
  {
    if ops == [] then es else MeantAll(Meant(es, ops[0]), ops[1..])
  }

  predicate Usable(s: State) {
    s.root.Root? ==> Searchable(s.root.tree)
  }

  /** mdb_put and mdb_del as steps; deleting a key that is not there changes nothing. */
  function Do(env: Env, s: State, op: Op): Result
    requires env.psize > 0 && env.PMax() > 0 && Usable(s)
  {
    match op
    case PutOp(k, v) =>
      if s.root.NoRoot? then
        var (pg, p1) := NewLeaf(s.pool);
        var (r, d, p2) := RootPut(env, Leaf(pg, []), 1, k, v, p1);
        if r.NoRoot? then Failed else Done(State(r, d, p2))
      else
        TouchPathSearchable(s.root.tree, k, s.pool);
        var (t, p1) := TouchPath(s.root.tree, k, s.pool);
        var (r, d, p2) := RootPut(env, t, s.depth, k, v, p1);
        if r.NoRoot? then Failed else Done(State(r, d, p2))
    case DelOp(k) =>
      if s.root.NoRoot? || Lookup(Flat(s.root.tree), k) == Missing then Done(s)
      else
        TouchPathSearchable(s.root.tree, k, s.pool);
        var (t, p1) := TouchPath(s.root.tree, k, s.pool);
        var (ok, r, d, p2) := RootDel(env, t, s.depth, k, p1);
        if ok then Done(State(r, d, p2)) else Failed
  }

  /** The table agrees with its tree, and with the counters. */
  ghost predicate Good(env: Env, s: State) {
    env.Ok() && GoodRoot(env, s.root, s.depth) && Counted(s.root, s.pool)
  }

  lemma GoodUsable(env: Env, s: State)
    requires Good(env, s)
    ensures Usable(s) && env.psize > 0 && env.PMax() > 0
  {
    if s.root.Root? { SortedSearchable(s.root.tree); }
  }

  /** The operation runs into MDB_PAGE_FULL. */
  ghost predicate FillsUp(env: Env, s: State, op: Op)
    requires env.psize > 0 && env.PMax() > 0
  {
    match op
    case PutOp(k, v) => PutRefused(env, s.root, k, v, s.pool)
    case DelOp(k) => Lookup(RootFlat(s.root), k) != Missing && DelRefused(env, s.root, k)
  }

  /** One operation does to the table what it means for the map, and conserves pages. */
  lemma {:induction false} PutStep(env: Env, s: State, k: Key, v: Val)
    requires Good(env, s) && Usable(s)
    ensures var r := Do(env, s, PutOp(k, v));
            r.Done? ==> (Good(env, r.state) && RootFlat(r.state.root) == Upsert(RootFlat(s.root), k, v)
                         && Conserves(RootUse(s.root), s.pool, RootUse(r.state.root), r.state.pool))
    ensures Do(env, s, PutOp(k, v)).Failed? <==> PutRefused(env, s.root, k, v, s.pool)
  {
    hide Conserves, GoodTree, Upsert, BTreePages.Shape, Counted, NewLeaf, TouchPath, FlatKids, RootPut, PutVerdict;
    var t, d, p1;
    if s.root.NoRoot? {
      var (pg, p) := NewLeaf(s.pool);
      t, d, p1 := Leaf(pg, []), 1, p;
      NewLeafTakes(env, pg, k, v, p);
      NewPageConserves(s.pool);
      EmptyLeaf(pg);
    } else {
      var (t1, p) := TouchPath(s.root.tree, k, s.pool);
      t, d, p1 := t1, s.depth, p;
      TouchPathKeeps(env, s.root.tree, k, s.pool, s.depth);
      TouchPathConserves(s.root.tree, k, s.pool);
      TouchPathSearchable(s.root.tree, k, s.pool);
      TouchPathVerdict(env, s.root.tree, k, v, s.pool, p.dirty);
    }
    RootPutCorrect(env, t, d, k, v, p1);
    var (r, d', p2) := RootPut(env, t, d, k, v, p1);
    if r.Root? {
      ConservesTwice(RootUse(s.root), s.pool, BTreePages.Shape(t), p1, RootUse(r), p2);
      StillCounted(s.root, s.pool, r, p2);
    }
  }

  lemma {:induction false} DelStep(env: Env, s: State, k: Key)
    requires Good(env, s) && Usable(s)
    ensures var r := Do(env, s, DelOp(k));
            r.Done? ==> (Good(env, r.state) && RootFlat(r.state.root) == Remove(RootFlat(s.root), k)
                         && Conserves(RootUse(s.root), s.pool, RootUse(r.state.root), r.state.pool))
    ensures Do(env, s, DelOp(k)).Failed? <==> Lookup(RootFlat(s.root), k) != Missing && DelRefused(env, s.root, k)
  {
    hide Conserves, GoodTree, BTreePages.Shape, Counted, TouchPath, FlatKids, RootDel, Lookup, DelFate;
    RemoveMissing(RootFlat(s.root), k);
    ConservesNothing(RootUse(s.root), s.pool);
    EmptyLookup(k);
    if s.root.Root? && Lookup(Flat(s.root.tree), k) != Missing {
      var (t, p1) := TouchPath(s.root.tree, k, s.pool);
      TouchPathKeeps(env, s.root.tree, k, s.pool, s.depth);
      TouchPathConserves(s.root.tree, k, s.pool);
      TouchPathSearchable(s.root.tree, k, s.pool);
      StillCounted(s.root, s.pool, Root(t), p1);
      RootDelCorrect(env, t, s.depth, k, p1);
      TouchPathFate(env, s.root.tree, k, s.pool);
      var (ok, r, d', p2) := RootDel(env, t, s.depth, k, p1);
      if ok {
        ConservesTwice(RootUse(s.root), s.pool, BTreePages.Shape(t), p1, RootUse(r), p2);
        StillCounted(s.root, s.pool, r, p2);
      }
    }
  }

  lemma EmptyLookup(k: Key)
    ensures Lookup([], k) == Missing
  {
  }

  lemma {:induction false} RemoveMissing(es: seq<Entry>, k: Key)
    ensures Lookup(es, k) == Missing ==> Remove(es, k) == es
  {
    if es != [] { RemoveMissing(es[1..], k); }
  }

  /** Any sequence of operations, up to the first that fails. */
  ghost function DoAll(env: Env, s: State, ops: seq<Op>): Result
    requires Good(env, s)
    decreases ops
  {
    GoodUsable(env, s);
    if ops == [] then Done(s)
    else
      StepGood(env, s, ops[0]);
      match Do(env, s, ops[0])
      case Failed => Failed
      case Done(s') => DoAll(env, s', ops[1..])
  }

  lemma {:induction false} StepGood(env: Env, s: State, op: Op)
    requires Good(env, s) && Usable(s)
    ensures var r := Do(env, s, op);
            r.Done? ==> (Good(env, r.state) && RootFlat(r.state.root) == Meant(RootFlat(s.root), op)
                         && Conserves(RootUse(s.root), s.pool, RootUse(r.state.root), r.state.pool))
    ensures Do(env, s, op).Failed? <==> FillsUp(env, s, op)
  {
    hide Do, Good, Conserves, PutRefused, DelRefused;
    match op
    case PutOp(k, v) => PutStep(env, s, k, v);
    case DelOp(k) => DelStep(env, s, k);
  }

  /** The operations before the one that is refused succeed, and it comes first. */
  ghost predicate StopsAt(env: Env, s: State, ops: seq<Op>, n: nat)
    requires Good(env, s) && env.psize > 0 && env.PMax() > 0 && n < |ops|
  {
    var r := DoAll(env, s, ops[..n]);
    r.Done? && FillsUp(env, r.state, ops[n])
  }

  lemma {:induction false} StopsLater(env: Env, s: State, ops: seq<Op>, n: nat)
    requires Good(env, s) && Usable(s) && env.psize > 0 && env.PMax() > 0 && n + 1 < |ops|
    requires var r := Do(env, s, ops[0]); r.Done? && Good(env, r.state)
    ensures StopsAt(env, s, ops, n + 1) <==> StopsAt(env, Do(env, s, ops[0]).state, ops[1..], n)
  {
    hide Do, Good, FillsUp;
    assert ops[..n + 1][1..] == ops[1..][..n] && ops[..n + 1][0] == ops[0];
  }

  /** A transaction fails exactly if it comes to an operation that is refused. */
  lemma {:induction false} FailsExactly(env: Env, s: State, ops: seq<Op>)
    requires Good(env, s) && env.psize > 0 && env.PMax() > 0
    ensures DoAll(env, s, ops).Failed? <==> exists n: nat :: n < |ops| && StopsAt(env, s, ops, n)
    decreases ops
  {
    hide Do, Good, FillsUp, StopsAt;
    GoodUsable(env, s);
    if ops != [] {
      StepGood(env, s, ops[0]);
      FirstStop(env, s, ops);
      if Do(env, s, ops[0]).Done? {
        var s' := Do(env, s, ops[0]).state;
        FailsExactly(env, s', ops[1..]);
        if n: nat :| n < |ops[1..]| && StopsAt(env, s', ops[1..], n) {
          StopsLater(env, s, ops, n);
          assert StopsAt(env, s, ops, n + 1);
        }
        if n: nat :| n < |ops| && StopsAt(env, s, ops, n) {
          assert n > 0;
          StopsLater(env, s, ops, n - 1);
          assert StopsAt(env, s', ops[1..], n - 1);
        }
      } else {
        assert StopsAt(env, s, ops, 0);
        assert DoAll(env, s, ops).Failed?;
      }
    }
  }

  lemma FirstStop(env: Env, s: State, ops: seq<Op>)
    requires Good(env, s) && env.psize > 0 && env.PMax() > 0 && |ops| > 0
    ensures StopsAt(env, s, ops, 0) <==> FillsUp(env, s, ops[0])
  {
    assert ops[..0] == [];
  }

  /**
   A transaction refines the map: after any operations the table holds what they mean, in good
   order, with counters that agree with the tree, and no page was lost or doubled. It fails only,
   and always, at an operation that a page refuses.
   */
  lemma {:induction false} TransactionRefinesMap(env: Env, s: State, ops: seq<Op>)
    requires Good(env, s)
    ensures var r := DoAll(env, s, ops);
            r.Done? ==> (Good(env, r.state) && RootFlat(r.state.root) == MeantAll(RootFlat(s.root), ops)
                         && Conserves(RootUse(s.root), s.pool, RootUse(r.state.root), r.state.pool))
    ensures DoAll(env, s, ops).Failed? <==> env.psize > 0 && env.PMax() > 0 && exists n: nat :: n < |ops| && StopsAt(env, s, ops, n)
    decreases ops
  {
    hide Do, Good, Conserves, GoodRoot, StopsAt;
    GoodUsable(env, s);
    FailsExactly(env, s, ops);
    if ops == [] {
      ConservesNothing(RootUse(s.root), s.pool);
    } else {
      StepGood(env, s, ops[0]);
      match Do(env, s, ops[0])
      case Failed =>
      case Done(s') =>
        TransactionRefinesMap(env, s', ops[1..]);
        var r := DoAll(env, s', ops[1..]);
        if r.Done? {
          ConservesTwice(RootUse(s.root), s.pool, RootUse(s'.root), s'.pool, RootUse(r.state.root), r.state.pool);
        }
    }
  }

  // ---- What mdb_audit counts -----------------------------------------------------------------

  /** Pages 2 .. next - 1 are the tree's, the transaction's free ones, and `others`, each in one place. */
  ghost predicate Audited(s: State, others: multiset<Pgno>) {
    s.pool.next >= 2 && RootUse(s.root).pages + Held(s.pool) + others == multiset(Run(2, s.pool.next - 2))
  }

  lemma MoreInAll(a: multiset<Pgno>, b: multiset<Pgno>, others: multiset<Pgno>, all: multiset<Pgno>, more: multiset<Pgno>)
    requires b == a + more && a + others == all
    ensures b + others == all + more
  {
  }

  /** Whatever a transaction puts and deletes, every page of the file stays in exactly one place. */
  lemma {:induction false} TransactionAudited(env: Env, s: State, ops: seq<Op>, others: multiset<Pgno>)
    requires Good(env, s) && Audited(s, others)
    ensures var r := DoAll(env, s, ops); r.Done? ==> Audited(r.state, others)
  {
    hide DoAll, Good, Held, Run, Meant, MeantAll, Do, RootUse, RootFlat;
    TransactionRefinesMap(env, s, ops);
    var r := DoAll(env, s, ops);
    if r.Done? {
      var n, k := s.pool.next - 2, r.state.pool.next - s.pool.next;
      RunJoin(2, n, k);
      var a, b := RootUse(s.root).pages + Held(s.pool), RootUse(r.state.root).pages + Held(r.state.pool);
      assert multiset(Run(2, n) + Run(2 + n, k)) == multiset(Run(2, n)) + multiset(Run(2 + n, k));
      MoreInAll(a, b, others, multiset(Run(2, n)), multiset(Run(s.pool.next, k)));
    }
  }

  lemma {:induction false} StepCow(env: Env, s: State, op: Op, base: Tree, C: set<Pgno>)
    requires Good(env, s) && Usable(s) && RootCow(s.root, base, C) && Apart(s.pool, C)
    ensures var r := Do(env, s, op); r.Done? ==> RootCow(r.state.root, base, C) && Apart(r.state.pool, C)
  {
    hide Cow, Apart, GoodTree, Counted, RootPut, RootDel, TouchPath, Lookup, Take;
    match op
    case PutOp(k, v) =>
      if s.root.Root? {
        PutKeepsCommitted(env, s.root.tree, s.depth, k, v, s.pool, base, C);
      } else {
        FirstPutCow(env, k, v, s.pool, base, C);
      }
    case DelOp(k) =>
      if s.root.Root? { DelKeepsCommitted(env, s.root.tree, s.depth, k, s.pool, base, C); }
  }

  lemma {:induction false} FirstPutCow(env: Env, k: Key, v: Val, p: Pool, base: Tree, C: set<Pgno>)
    requires env.psize > 0 && Apart(p, C)
    ensures var (pg, p1) := NewLeaf(p);
            var (r, _, p2) := RootPut(env, Leaf(pg, []), 1, k, v, p1); RootCow(r, base, C) && Apart(p2, C)
  {
    hide Cow, Apart, NewLeaf, NewRoot;
    TakeApart(p, C);
    var (pg, p1) := NewLeaf(p);
    LeafCow(pg, [], base, C);
    OnePath(pg, k, C);
    PutCow(env, Leaf(pg, []), k, v, p1, base, C);
    var (g, p2) := Put(env, Leaf(pg, []), k, v, p1);
    if g.Split? { NewRootCow(g.left, g.sep, g.right, p2, base, C); }
  }

  lemma OnePath(pg: Pgno, k: Key, C: set<Pgno>)
    requires pg !in C
    ensures PathFree(Leaf(pg, []), k, C)
  {
  }

  /**
   Whatever a transaction does, every page of its tree that lies in C, the pages somebody may
   still need, is a page of the tree it began with, unchanged together with all below it.
   */
  lemma {:induction false} CommittedPagesSurvive(env: Env, s: State, ops: seq<Op>, base: Tree, C: set<Pgno>)
    requires Good(env, s) && RootCow(s.root, base, C) && Apart(s.pool, C)
    ensures var r := DoAll(env, s, ops); r.Done? ==> RootCow(r.state.root, base, C)
    decreases ops
  {
    hide Do, Good, Apart, RootCow;
    GoodUsable(env, s);
    if ops != [] {
      StepGood(env, s, ops[0]);
      StepCow(env, s, ops[0], base, C);
      match Do(env, s, ops[0])
      case Failed =>
      case Done(s') => CommittedPagesSurvive(env, s', ops[1..], base, C);
    }
  }
}
