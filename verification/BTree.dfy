/**
 The B+tree of mdb.c: pages, node sizes, order, and the map a tree stands for.

 Keys are compared only through the database's comparator, a total order. There are finitely
 many keys (byte strings of 1 to 511 bytes), so a key is represented by its rank in that order
 and `Env.ksize` gives the number of bytes of the key of a given rank.
 */
module BTree {
  type Key = int
  type Pgno = nat

  datatype Val = Val(size: nat, body: int)

  /** Where a leaf node keeps its data: on the page, or on a run of overflow pages. */
  datatype Store = Inline | Overflow(pg: Pgno, n: nat)

  datatype Item = Item(key: Key, val: Val, store: Store)

  /** The key of a branch node; the one in slot 0 is empty. */
  datatype Sep = Empty | At(key: Key)

  datatype Kid = Kid(sep: Sep, sub: Tree)

  datatype Tree = Leaf(pg: Pgno, items: seq<Item>) | Branch(pg: Pgno, kids: seq<Kid>)

  // ---- Sizes ---------------------------------------------------------------------------------

  const PAGE_HEADER := 16
  const NODE_HEADER := 8
  const SLOT := 2
  const PGNO_SIZE := 8
  const MAX_KEY := 511

  datatype Env = Env(psize: nat, ksize: Key -> nat) {
    /** Page sizes are those of the operating system, at most MAX_PAGESIZE. */
    ghost predicate Ok() {
      psize % 2 == 0 && 4096 <= psize <= 0x8000 && forall k :: 1 <= ksize(k) <= MAX_KEY
    }

    /** The room for slots and nodes on an empty page. */
    function PMax(): int { psize - PAGE_HEADER }

    /** me_nodemax */
    function NodeMax(): int { PMax() / 2 - PMax() / 2 % 2 - SLOT }
  }

  /** me_nodemax is the largest even size of which two nodes fit on a page, slots included. */
  lemma TwoNodesFit(env: Env)
    ensures env.NodeMax() % 2 == 0 && 2 * (env.NodeMax() + SLOT) <= env.PMax() < 2 * (env.NodeMax() + 2 + SLOT)
  {
    var h := env.PMax() / 2;
    assert (h - h % 2) % 2 == 0;
  }

  function Even(n: int): int { n + n % 2 }

  /** Bytes a leaf node takes on its page, slot included (mdb_node_add, mdb_node_del). */
  function ItemSize(env: Env, it: Item): int {
    Even(NODE_HEADER + env.ksize(it.key) + if it.store.Inline? then it.val.size else PGNO_SIZE) + SLOT
  }

  /** mdb_leaf_size */
  function LeafSize(env: Env, k: Key, v: Val): int {
    var sz := NODE_HEADER + env.ksize(k) + v.size;
    Even((if sz > env.NodeMax() then sz - (v.size - PGNO_SIZE) else sz) + SLOT)
  }

  function SepSize(env: Env, s: Sep): nat {
    match s case Empty => 0 case At(k) => env.ksize(k)
  }

  /** Bytes a branch node takes on its page, slot included. */
  function KidSize(env: Env, kid: Kid): int {
    Even(NODE_HEADER + SepSize(env, kid.sep)) + SLOT
  }

  /** mdb_branch_size: not rounded, unlike the space the node takes. */
  function BranchSize(env: Env, s: Sep): int {
    NODE_HEADER + SepSize(env, s) + SLOT
  }

  function Sum(ns: seq<int>): int {
    if ns == [] then 0 else ns[0] + Sum(ns[1..])
  }

  lemma {:induction false} SumAppend(a: seq<int>, b: seq<int>)
    ensures Sum(a + b) == Sum(a) + Sum(b)
  {
    if a == [] {
      assert a + b == b;
    } else {
      assert (a + b)[0] == a[0] && (a + b)[1..] == a[1..] + b;
      SumAppend(a[1..], b);
    }
  }

  function ItemSizes(env: Env, items: seq<Item>): (ns: seq<int>)
    ensures |ns| == |items| && forall i :: 0 <= i < |ns| ==> ns[i] == ItemSize(env, items[i])
  {
    seq(|items|, i requires 0 <= i < |items| => ItemSize(env, items[i]))
  }

  function KidSizes(env: Env, kids: seq<Kid>): (ns: seq<int>)
    ensures |ns| == |kids| && forall i :: 0 <= i < |ns| ==> ns[i] == KidSize(env, kids[i])
  {
    seq(|kids|, i requires 0 <= i < |kids| => KidSize(env, kids[i]))
  }

  /** The bytes in use on a page: mp_lower and mp_upper are this far from meeting. */
  function Used(env: Env, t: Tree): int {
    match t
    case Leaf(_, items) => Sum(ItemSizes(env, items))
    case Branch(_, kids) => Sum(KidSizes(env, kids))
  }

  function SizeLeft(env: Env, t: Tree): int { env.PMax() - Used(env, t) }

  function NumKeys(t: Tree): nat {
    match t case Leaf(_, items) => |items| case Branch(_, kids) => |kids|
  }

  // ---- Contents and order --------------------------------------------------------------------

  datatype Entry = Entry(key: Key, val: Val)

  function Entries(items: seq<Item>): (es: seq<Entry>)
    ensures |es| == |items|
    ensures forall i :: 0 <= i < |es| ==> es[i] == Entry(items[i].key, items[i].val)
  {
    seq(|items|, i requires 0 <= i < |items| => Entry(items[i].key, items[i].val))
  }

  /** The bindings of a tree, left to right. */
  function Flat(t: Tree): seq<Entry>
    decreases t, 1
  {
    match t
    case Leaf(_, items) => Entries(items)
    case Branch(_, kids) => FlatKids(kids)
  }

  function FlatKids(kids: seq<Kid>): seq<Entry>
    decreases kids, 0
  {
    if kids == [] then []
    else
      var kid := kids[0];
      assert kid.sub < kid;
      Flat(kid.sub) + FlatKids(kids[1..])
  }

  lemma {:induction false} FlatAppend(a: seq<Kid>, b: seq<Kid>)
    ensures FlatKids(a + b) == FlatKids(a) + FlatKids(b)
  {
    if a == [] {
      assert a + b == b;
    } else {
      assert (a + b)[0] == a[0] && (a + b)[1..] == a[1..] + b;
      FlatAppend(a[1..], b);
      assert FlatKids(a + b) == Flat(a[0].sub) + (FlatKids(a[1..]) + FlatKids(b));
    }
  }

  lemma FlatOne(kid: Kid)
    ensures FlatKids([kid]) == Flat(kid.sub)
  {
    assert [kid][1..] == [];
  }

  /** The bindings of a run of children, split at one of them. */
  lemma FlatSplit(kids: seq<Kid>, i: nat)
    requires i < |kids|
    ensures FlatKids(kids) == FlatKids(kids[..i]) + Flat(kids[i].sub) + FlatKids(kids[i + 1..])
  {
    hide FlatKids;
    var a, k, c := kids[..i], kids[i], kids[i + 1..];
    assert kids == a + ([k] + c);
    FlatAppend(a, [k] + c);
    FlatAppend([k], c);
    FlatOne(k);
    assert FlatKids(a) + (Flat(k.sub) + FlatKids(c)) == FlatKids(a) + Flat(k.sub) + FlatKids(c);
  }

  ghost predicate Below(es: seq<Entry>, k: Key) {
    forall i :: 0 <= i < |es| ==> es[i].key < k
  }

  ghost predicate AtLeast(es: seq<Entry>, k: Key) {
    forall i :: 0 <= i < |es| ==> k <= es[i].key
  }

  ghost predicate Ascending(es: seq<Entry>) {
    forall i, j :: 0 <= i < j < |es| ==> es[i].key < es[j].key
  }

  lemma BelowAppend(a: seq<Entry>, b: seq<Entry>, k: Key)
    ensures Below(a + b, k) <==> Below(a, k) && Below(b, k)
    ensures AtLeast(a + b, k) <==> AtLeast(a, k) && AtLeast(b, k)
  {
    var c := a + b;
    if Below(c, k) || AtLeast(c, k) {
      assert forall i :: 0 <= i < |a| ==> c[i] == a[i];
      forall i | 0 <= i < |b| ensures b[i] == c[|a| + i] { }
    }
  }

  lemma {:induction false} KidsBound(kids: seq<Kid>, k: Key)
    ensures Below(FlatKids(kids), k) <==> forall j :: 0 <= j < |kids| ==> Below(Flat(kids[j].sub), k)
    ensures AtLeast(FlatKids(kids), k) <==> forall j :: 0 <= j < |kids| ==> AtLeast(Flat(kids[j].sub), k)
  {
    if kids != [] {
      var rest := kids[1..];
      KidsBound(rest, k);
      BelowAppend(Flat(kids[0].sub), FlatKids(rest), k);
      assert forall j :: 0 < j < |kids| ==> kids[j] == rest[j - 1];
      assert forall j :: 0 <= j < |rest| ==> rest[j] == kids[j + 1];
    }
  }

  lemma AscendingAppend(a: seq<Entry>, b: seq<Entry>, k: Key)
    requires Ascending(a) && Ascending(b) && Below(a, k) && AtLeast(b, k)
    ensures Ascending(a + b)
  {
  }

  // ---- Well-formed trees ---------------------------------------------------------------------

  /** Slot 0 has the empty key; separator i divides the children before i from those from i on. */
  ghost predicate Separated(kids: seq<Kid>) {
    && (forall i :: 0 <= i < |kids| ==> (kids[i].sep.Empty? <==> i == 0))
    && (forall i, j :: 0 < i < |kids| && 0 <= j < i ==> Below(Flat(kids[j].sub), kids[i].sep.key))
    && (forall i, j :: 0 < i <= j < |kids| ==> AtLeast(Flat(kids[j].sub), kids[i].sep.key))
  }

  /** Keys are in order, no leaf is empty, no branch has fewer than two children. */
  ghost predicate Sorted(t: Tree)
    decreases t
  {
    match t
    case Leaf(_, items) => |items| > 0 && Ascending(Entries(items))
    case Branch(_, kids) =>
      |kids| >= 2 && Separated(kids) &&
      forall i :: 0 <= i < |kids| ==> var kid := kids[i]; assert kid.sub < kid; Sorted(kid.sub)
  }

  /** All leaves are at the same depth. */
  ghost predicate Uniform(t: Tree, d: nat)
    decreases d
  {
    match t
    case Leaf(_, _) => d == 1
    case Branch(_, kids) => d > 1 && forall i :: 0 <= i < |kids| ==> Uniform(kids[i].sub, d - 1)
  }

  lemma {:induction false} FlatNonEmpty(t: Tree)
    requires Sorted(t)
    ensures |Flat(t)| > 0
    decreases t
  {
    if t.Branch? {
      var kid := t.kids[0];
      assert kid.sub < kid;
      FlatNonEmpty(kid.sub);
    }
  }

  lemma {:induction false} FlatAscending(t: Tree)
    requires Sorted(t)
    ensures Ascending(Flat(t))
    decreases t, 1
  {
    match t
    case Leaf(_, _) =>
    case Branch(_, kids) =>
      forall i | 0 <= i < |kids| ensures Ascending(Flat(kids[i].sub)) {
        var kid := kids[i];
        assert kid.sub < kid;
        FlatAscending(kid.sub);
      }
      KidsAscending(kids, |kids|);
      assert kids[..|kids|] == kids;
  }

  lemma {:induction false} KidsAscending(kids: seq<Kid>, n: nat)
    requires n <= |kids| && Separated(kids)
    requires forall i :: 0 <= i < |kids| ==> Ascending(Flat(kids[i].sub))
    ensures Ascending(FlatKids(kids[..n]))
    decreases kids, 0, n
  {
    if n > 0 {
      KidsAscending(kids, n - 1);
      assert kids[..n] == kids[..n - 1] + [kids[n - 1]];
      FlatAppend(kids[..n - 1], [kids[n - 1]]);
      FlatOne(kids[n - 1]);
      if n > 1 {
        var k := kids[n - 1].sep.key;
        KidsBound(kids[..n - 1], k);
        AscendingAppend(FlatKids(kids[..n - 1]), Flat(kids[n - 1].sub), k);
      } else {
        assert kids[..0] == [];
      }
    } else {
      assert kids[..0] == [];
    }
  }

  /** Separators grow from left to right, because every child holds something. */
  lemma SepsAscend(t: Tree, i: nat, j: nat)
    requires t.Branch? && Sorted(t) && 0 < i < j < |t.kids|
    ensures t.kids[i].sep.key < t.kids[j].sep.key
  {
    var kid := t.kids[i];
    assert kid.sub < kid;
    FlatNonEmpty(kid.sub);
    assert Below(Flat(kid.sub), t.kids[j].sep.key) && AtLeast(Flat(kid.sub), kid.sep.key);
    var e := Flat(kid.sub)[0];
    assert kid.sep.key <= e.key < t.kids[j].sep.key;
  }
}
