/**
 A run into MDB_PAGE_FULL: twenty puts fill a page of an empty table, four large nodes to the
 left, and the next put, of a small node in front, has the page split in the middle, where the
 left half is too large. The transaction can only be aborted, although the pages have the room.
 */
module FullPageRun {
  import opened BTree
  import opened BTreeSearch
  import opened PagePool
  import opened SplitPoint
  import opened BTreePut
  import opened BTreePutProof
  import opened BTreeFull
  import opened BTreeTable
  import opened BTreeRun

  /** Pages of 4096 bytes, keys of one byte. */
  function SmallKeys(): Env { Env(4096, (k: Key) => 1) }

  function ValueOf(k: Key): Val { Val(if k < 0 then 243 else if k < 4 then 959 else 1, 0) }

  /** The leaf nodes of the keys 0 .. n - 1. */
  function Nodes(n: nat): (items: seq<Item>)
    ensures |items| == n && forall j :: 0 <= j < n ==> items[j] == Item(j, ValueOf(j), Inline)
  {
    seq(n, j => Item(j, ValueOf(j), Inline))
  }

  lemma NodeSizes(n: nat)
    ensures var ns := ItemSizes(SmallKeys(), Nodes(n));
            |ns| == n && forall j :: 0 <= j < n ==> ns[j] == if j < 4 then 970 else 12
  {
  }

  lemma {:induction false} NodesSum(n: nat)
    ensures Sum(ItemSizes(SmallKeys(), Nodes(n))) == if n <= 4 then 970 * n else 3880 + 12 * (n - 4)
  {
    hide ItemSizes, Nodes;
    NodeSizes(n);
    var ns := ItemSizes(SmallKeys(), Nodes(n));
    if n <= 4 {
      assert ns == Repeat(n, 970);
      SumRepeat(n, 970);
    } else {
      assert ns == Repeat(4, 970) + Repeat(n - 4, 12);
      SumRepeat(4, 970);
      SumRepeat(n - 4, 12);
      SumAppend(Repeat(4, 970), Repeat(n - 4, 12));
    }
  }

  lemma NodesOk(n: nat)
    requires n <= 20
    ensures SmallKeys().Ok() && ItemsOk(SmallKeys(), Nodes(n))
  {
    hide Sum, ItemSizes;
    NodesSum(n);
  }

  /** The page of twenty nodes refuses the node of a new first key. */
  lemma {:induction false} TwentyRefuse(pg: Pgno, dirty: set<Pgno>)
    ensures PutVerdict(SmallKeys(), Leaf(pg, Nodes(20)), -1, ValueOf(-1), dirty) == Refused
  {
    hide Sum, ItemSizes, HalvesFit, Nodes, NodeKeys;
    NodesSum(20);
    NodeSizes(20);
    PositionIs(Nodes(20), -1, 0);
    var ns := ItemSizes(SmallKeys(), Nodes(20));
    MidpointMayOverflow();
    LopsidedIs(ns);
  }

  lemma LopsidedIs(ns: seq<int>)
    requires |ns| == 20 && forall j :: 0 <= j < 20 ==> ns[j] == if j < 4 then 970 else 12
    ensures Grow(ns, 0, 254) == Lopsided() && |Lopsided()| == 21
    ensures SplitIndex(Lopsided(), 0, 4080) == Midpoint(Lopsided())
  {
    var row := Grow(ns, 0, 254);
    var l := Lopsided();
    assert |l| == 21;
    forall j | 0 <= j < 21 ensures row[j] == l[j] { }
    assert row == l;
  }

  /** mdb_put reports MDB_PAGE_FULL on that page. */
  lemma {:induction false} PutMayFail(pg: Pgno, p: Pool)
    ensures Put(SmallKeys(), Leaf(pg, Nodes(20)), -1, ValueOf(-1), p).0 == Full
  {
    hide PutVerdict, PutLeaf;
    NodesOk(20);
    PutLeafAgrees(SmallKeys(), pg, Nodes(20), -1, ValueOf(-1), p);
    TwentyRefuse(pg, p.dirty);
  }

  /** The put on a table that consists of such a page. */
  method TablePutMayFail(t: Table, pg: Pgno) returns (rc: BTreeTable.Status)
    requires t.Valid() && !t.error && t.env == SmallKeys() && t.root == Root(Leaf(pg, Nodes(20)))
    modifies t
    ensures rc == Overfull
  {
    hide PutVerdict;
    TwentyRefuse(pg, TouchPath(t.root.tree, -1, t.pool).1.dirty);
    rc := t.Put(-1, ValueOf(-1));
  }

  // ---- From the empty table ------------------------------------------------------------------

  /** Puts of the keys n .. 19, and then of the key before them. */
  function Puts(n: nat): (ops: seq<Op>)
    requires n <= 20
    ensures |ops| == 21 - n && ops[0] == if n == 20 then PutOp(-1, ValueOf(-1)) else PutOp(n, ValueOf(n))
    decreases 20 - n
  {
    if n == 20 then [PutOp(-1, ValueOf(-1))] else [PutOp(n, ValueOf(n))] + Puts(n + 1)
  }

  /** The table after the first n puts of a transaction in a new file. */
  function Filled(n: nat): State {
    if n == 0 then State(NoRoot, 0, Pool([], 2, {}, [], [], false, 0, 0, 0))
    else State(Root(Leaf(2, Nodes(n))), 1, Pool([], 3, {2}, [], [], false, 0, 1, 0))
  }

  /** A node with a greater key goes to the end of a page that has room for it. */
  lemma {:induction false} Appended(n: nat, p: Pool)
    requires n < 20
    ensures PutLeaf(SmallKeys(), 2, Nodes(n), n, ValueOf(n), p) == (Same(Leaf(2, Nodes(n + 1))), p)
  {
    hide Sum, ItemSizes, Position;
    NodesSum(n);
    PositionIs(Nodes(n), n, n);
    assert Nodes(n)[..n] + [Item(n, ValueOf(n), Inline)] + Nodes(n)[n..] == Nodes(n + 1);
  }

  lemma {:induction false} PutFills(n: nat)
    requires n < 20 && Usable(Filled(n))
    ensures Do(SmallKeys(), Filled(n), PutOp(n, ValueOf(n))) == Done(Filled(n + 1))
  {
    hide PutLeaf;
    var s := Filled(n);
    assert Nodes(0) == [];
    Appended(n, if n == 0 then NewLeaf(s.pool).1 else s.pool);
  }

  lemma {:induction false} FilledGood(n: nat)
    requires n <= 20
    ensures Good(SmallKeys(), Filled(n))
  {
    hide Do, Good, Filled, FillsUp, Meant, Conserves, SmallKeys;
    if n > 0 {
      FilledGood(n - 1);
      GoodUsable(SmallKeys(), Filled(n - 1));
      PutFills(n - 1);
      StepGood(SmallKeys(), Filled(n - 1), PutOp(n - 1, ValueOf(n - 1)));
    } else {
      EmptyGood();
    }
  }

  lemma EmptyGood()
    ensures Good(SmallKeys(), Filled(0))
  {
  }

  lemma {:induction false} RestFails(n: nat)
    requires n <= 20 && Good(SmallKeys(), Filled(n))
    ensures DoAll(SmallKeys(), Filled(n), Puts(n)).Failed?
    decreases 20 - n
  {
    hide Do, Good, Filled;
    GoodUsable(SmallKeys(), Filled(n));
    if n < 20 {
      FilledGood(n + 1);
      PutFills(n);
      RestFails(n + 1);
      assert Puts(n)[1..] == Puts(n + 1);
    } else {
      LastFails();
    }
  }

  lemma {:induction false} LastFails()
    requires Usable(Filled(20))
    ensures Do(SmallKeys(), Filled(20), PutOp(-1, ValueOf(-1))).Failed?
  {
    hide PutLeaf, Nodes;
    PutMayFail(2, Filled(20).pool);
  }

  /** Twenty-one puts into an empty table, the last of which ends in MDB_PAGE_FULL. */
  lemma {:induction false} TransactionMayFail()
    ensures Good(SmallKeys(), Filled(0)) && DoAll(SmallKeys(), Filled(0), Puts(0)).Failed?
  {
    hide Good, DoAll;
    FilledGood(0);
    RestFails(0);
  }
}
