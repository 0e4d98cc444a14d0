/**
 The page bookkeeping of a write transaction as the tree operations see it: which page comes
 next from mdb_page_alloc, where a page goes when a tree gives it up, and the page counters of
 the database record.

 `ready` are the pages mdb_page_alloc will hand out, in that order, before it extends the
 file; it is an arbitrary sequence here, so the results hold whatever the free list offers.
 */
module PagePool {
  type Pgno = nat

  datatype Pool = Pool(ready: seq<Pgno>, next: Pgno, dirty: set<Pgno>, freed: seq<Pgno>, loose: seq<Pgno>,
                       hasHead: bool, branch: int, leaf: int, overflow: int)

  /** Pages pg .. pg + n - 1. */
  function Run(pg: Pgno, n: nat): (r: seq<Pgno>)
    ensures |r| == n && forall i :: 0 <= i < n ==> r[i] == pg + i
  {
    seq(n, i requires 0 <= i < n => pg + i)
  }

  /** mdb_page_alloc of one page: a loose page, a reclaimed one, or the next new one. */
  function Take(p: Pool): (Pgno, Pool) {
    if p.loose != [] then (p.loose[0], p.(loose := p.loose[1..]))
    else if p.ready != [] then (p.ready[0], p.(ready := p.ready[1..], dirty := p.dirty + {p.ready[0]}))
    else (p.next, p.(next := p.next + 1, dirty := p.dirty + {p.next}))
  }

  /** mdb_page_alloc of a run: consecutive reclaimed pages, or new ones. */
  function TakeMany(p: Pool, n: nat): (Pgno, Pool) {
    if n == 1 then Take(p)
    else if 0 < n <= |p.ready| && p.ready[..n] == Run(p.ready[0], n) then
      (p.ready[0], p.(ready := p.ready[n..], dirty := p.dirty + {p.ready[0]}))
    else (p.next, p.(next := p.next + n, dirty := p.dirty + {p.next}))
  }

  /** mdb_page_new, which counts the page in the database record. */
  function NewLeaf(p: Pool): (Pgno, Pool) {
    var (pg, p') := Take(p);
    (pg, p'.(leaf := p'.leaf + 1))
  }

  function NewBranch(p: Pool): (Pgno, Pool) {
    var (pg, p') := Take(p);
    (pg, p'.(branch := p'.branch + 1))
  }

  function NewRun(p: Pool, n: nat): (Pgno, Pool) {
    var (pg, p') := TakeMany(p, n);
    (pg, p'.(overflow := p'.overflow + n))
  }

  /** Append to mt_free_pgs. */
  function Free(p: Pool, pg: Pgno): Pool {
    p.(freed := p.freed + [pg])
  }

  /** mdb_page_loose: a page dirtied by this transaction may be reused by it. */
  function Loosen(p: Pool, pg: Pgno): Pool {
    if pg in p.dirty then p.(loose := [pg] + p.loose) else Free(p, pg)
  }

  /** mdb_ovpage_free: a dirty run goes back to the reclaimed pages, if there are any. */
  function FreeRun(p: Pool, pg: Pgno, n: nat): Pool {
    if p.hasHead && pg in p.dirty then
      p.(ready := Run(pg, n) + p.ready, dirty := p.dirty - {pg}, overflow := p.overflow - n)
    else p.(freed := p.freed + Run(pg, n), overflow := p.overflow - n)
  }

  /** A page given up by the transaction that dirtied it is the next one it gets; any other is gone until the commit. */
  lemma LooseIsNext(p: Pool, pg: Pgno)
    ensures pg in p.dirty ==> Take(Loosen(p, pg)) == (pg, p)
    ensures pg !in p.dirty ==> Loosen(p, pg).freed == p.freed + [pg] && Take(Loosen(p, pg)).0 == Take(p).0
  {
    assert ([pg] + p.loose)[1..] == p.loose;
  }

  /** A dirty run given back while there is a reclaimed list is the next run of that length. */
  lemma RunIsNext(p: Pool, pg: Pgno, n: nat)
    requires n > 1 && p.hasHead && pg in p.dirty
    ensures NewRun(FreeRun(p, pg, n), n) == (pg, p)
  {
    var r := Run(pg, n) + p.ready;
    assert r[..n] == Run(pg, n) && r[n..] == p.ready;
    assert p.dirty - {pg} + {pg} == p.dirty;
  }

  /** The file grows only when there is neither a loose nor a reclaimed page. */
  lemma GrowsLast(p: Pool)
    ensures var (pg, p') := Take(p); p'.next > p.next <==> p.loose == [] && p.ready == []
    ensures var (pg, p') := Take(p); p.loose != [] || pg in p'.dirty
  {
  }

  /** What a tree uses: its pages, and how many of each kind. */
  datatype Use = Use(pages: multiset<Pgno>, branch: int, leaf: int, overflow: int)

  const Nothing := Use(multiset{}, 0, 0, 0)

  function Plus(a: Use, b: Use): Use {
    Use(a.pages + b.pages, a.branch + b.branch, a.leaf + b.leaf, a.overflow + b.overflow)
  }

  function LeafUse(pg: Pgno): Use { Use(multiset{pg}, 0, 1, 0) }
  function BranchUse(pg: Pgno): Use { Use(multiset{pg}, 1, 0, 0) }
  function RunUse(pg: Pgno, n: nat): Use { Use(multiset(Run(pg, n)), 0, 0, n) }

  /** The pages the transaction holds outside its trees. */
  ghost function Held(p: Pool): multiset<Pgno> {
    multiset(p.ready) + multiset(p.freed) + multiset(p.loose)
  }

  /**
   The trees went from using `u` to using `u'` while the pool went from `p` to `p'`: no page
   was lost or doubled, and the counters changed with the trees.
   */
  ghost predicate Conserves(u: Use, p: Pool, u': Use, p': Pool) {
    && p.next <= p'.next
    && u'.pages + Held(p') == u.pages + Held(p) + multiset(Run(p.next, p'.next - p.next))
    && p'.branch - p.branch == u'.branch - u.branch
    && p'.leaf - p.leaf == u'.leaf - u.leaf
    && p'.overflow - p.overflow == u'.overflow - u.overflow
  }

  lemma {:induction false} RunJoin(a: Pgno, m: nat, n: nat)
    ensures Run(a, m) + Run(a + m, n) == Run(a, m + n)
  {
  }

  lemma {:induction false} ConservesNothing(u: Use, p: Pool)
    ensures Conserves(u, p, u, p)
  {
    assert Run(p.next, 0) == [];
  }

  lemma {:induction false} ConservesTwice(u: Use, p: Pool, u': Use, p': Pool, u'': Use, p'': Pool)
    requires Conserves(u, p, u', p') && Conserves(u', p', u'', p'')
    ensures Conserves(u, p, u'', p'')
  {
    hide Run, Held;
    var m, n := p'.next - p.next, p''.next - p'.next;
    RunJoin(p.next, m, n);
    var a, b := multiset(Run(p.next, m)), multiset(Run(p'.next, n));
    assert multiset(Run(p.next, m + n)) == a + b;
    SumsTwice(u.pages + Held(p), u'.pages + Held(p'), u''.pages + Held(p''), a, b);
  }

  lemma SumsTwice(x: multiset<Pgno>, y: multiset<Pgno>, z: multiset<Pgno>, a: multiset<Pgno>, b: multiset<Pgno>)
    requires y == x + a && z == y + b
    ensures z == x + (a + b)
  {
  }

  lemma {:induction false} ConservesBeside(u: Use, p: Pool, u': Use, p': Pool, rest: Use)
    requires Conserves(u, p, u', p')
    ensures Conserves(Plus(u, rest), p, Plus(u', rest), p')
  {
    assert u'.pages + rest.pages + Held(p') == (u'.pages + Held(p')) + rest.pages;
  }

  lemma {:induction false} HeadAndTail(s: seq<Pgno>)
    requires s != []
    ensures multiset(s) == multiset{s[0]} + multiset(s[1..])
  {
    assert s == [s[0]] + s[1..];
  }

  lemma {:induction false} TakeKeeps(p: Pool)
    ensures var (pg, p') := Take(p);
            && p.next <= p'.next && multiset{pg} + Held(p') == Held(p) + multiset(Run(p.next, p'.next - p.next))
            && (p'.branch, p'.leaf, p'.overflow) == (p.branch, p.leaf, p.overflow)
  {
    if p.loose != [] {
      HeadAndTail(p.loose);
      assert Run(p.next, 0) == [];
    } else if p.ready != [] {
      HeadAndTail(p.ready);
      assert Run(p.next, 0) == [];
    } else {
      assert Run(p.next, 1) == [p.next];
    }
  }

  lemma {:induction false} NewPageConserves(p: Pool)
    ensures Conserves(Nothing, p, LeafUse(NewLeaf(p).0), NewLeaf(p).1)
    ensures Conserves(Nothing, p, BranchUse(NewBranch(p).0), NewBranch(p).1)
  {
    TakeKeeps(p);
  }

  lemma {:induction false} TakeManyKeeps(p: Pool, n: nat)
    requires n > 1
    ensures var (pg, p') := TakeMany(p, n);
            && p.next <= p'.next && multiset(Run(pg, n)) + Held(p') == Held(p) + multiset(Run(p.next, p'.next - p.next))
            && (p'.branch, p'.leaf, p'.overflow) == (p.branch, p.leaf, p.overflow)
  {
    if n <= |p.ready| && p.ready[..n] == Run(p.ready[0], n) {
      assert p.ready == p.ready[..n] + p.ready[n..];
      assert Run(p.next, 0) == [];
    }
  }

  /** The counters are not pages. */
  lemma HeldCounts(p: Pool, overflow: int)
    ensures Held(p.(overflow := overflow)) == Held(p)
  {
  }

  lemma OneIsTake(p: Pool)
    ensures TakeMany(p, 1) == Take(p)
  {
  }

  lemma {:induction false} NewRunConserves(p: Pool, n: nat)
    requires n > 0
    ensures Conserves(Nothing, p, RunUse(NewRun(p, n).0, n), NewRun(p, n).1)
  {
    hide Take, TakeMany, Held;
    HeldCounts(TakeMany(p, n).1, TakeMany(p, n).1.overflow + n);
    OneIsTake(p);
    if n == 1 {
      TakeKeeps(p);
      assert Run(Take(p).0, 1) == [Take(p).0];
    } else {
      TakeManyKeeps(p, n);
    }
  }

  lemma {:induction false} FreeRunConserves(p: Pool, pg: Pgno, n: nat)
    ensures Conserves(RunUse(pg, n), p, Nothing, FreeRun(p, pg, n))
  {
    assert Run(p.next, 0) == [];
  }

  lemma {:induction false} FreeKeeps(p: Pool, pg: Pgno)
    ensures Held(Free(p, pg)) == Held(p) + multiset{pg} && Held(Loosen(p, pg)) == Held(p) + multiset{pg}
  {
  }
}
