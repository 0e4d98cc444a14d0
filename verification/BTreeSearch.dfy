/** Looking a key up: binary search on a page, descent from the root, and what they find. */
module BTreeSearch {
  import opened BTree

  /** The first position whose key is not below k. */
  function Position(items: seq<Item>, k: Key): (i: nat)
    ensures i <= |items|
    ensures forall j :: 0 <= j < i ==> items[j].key < k
    ensures i < |items| ==> k <= items[i].key
  {
    if items == [] then 0
    else if items[0].key < k then 1 + Position(items[1..], k)
    else 0
  }

  /** The child a key belongs under: the last one whose separator is not above it. */
  function ChildAt(kids: seq<Kid>, k: Key): (i: nat)
    requires |kids| > 0 && forall j :: 0 < j < |kids| ==> kids[j].sep.At?
    ensures i < |kids|
    ensures i > 0 ==> kids[i].sep.key <= k
    ensures forall j :: i < j < |kids| ==> k < kids[j].sep.key
  {
    var n := |kids| - 1;
    if n == 0 || kids[n].sep.key <= k then n else ChildAt(kids[..n], k)
  }

  lemma PositionIs(items: seq<Item>, k: Key, i: nat)
    requires i <= |items|
    requires forall j :: 0 <= j < i ==> items[j].key < k
    requires i < |items| ==> k <= items[i].key
    ensures Position(items, k) == i
  {
  }

  lemma ChildAtIs(kids: seq<Kid>, k: Key, i: nat)
    requires |kids| > 0 && forall j :: 0 < j < |kids| ==> kids[j].sep.At?
    requires i < |kids| && (i > 0 ==> kids[i].sep.key <= k)
    requires forall j :: i < j < |kids| ==> k < kids[j].sep.key
    ensures ChildAt(kids, k) == i
  {
  }

  /** The keys of the nodes on a page; the empty key in slot 0 of a branch counts as 0. */
  function NodeKeys(t: Tree): (ks: seq<Key>)
    ensures |ks| == NumKeys(t)
    ensures t.Leaf? ==> forall i :: 0 <= i < |ks| ==> ks[i] == t.items[i].key
    ensures t.Branch? ==> forall i :: 0 <= i < |ks| ==> t.kids[i].sep.At? ==> ks[i] == t.kids[i].sep.key
  {
    match t
    case Leaf(_, items) => seq(|items|, i requires 0 <= i < |items| => items[i].key)
    case Branch(_, kids) =>
      seq(|kids|, i requires 0 <= i < |kids| => if kids[i].sep.At? then kids[i].sep.key else 0)
  }

  lemma KeysAscend(t: Tree)
    requires t.Leaf? ==> Ascending(Entries(t.items))
    requires t.Branch? ==> Sorted(t)
    ensures forall i, j :: (if t.Leaf? then 0 else 1) <= i < j < NumKeys(t) ==> NodeKeys(t)[i] < NodeKeys(t)[j]
  {
    forall i, j | (if t.Leaf? then 0 else 1) <= i < j < NumKeys(t) ensures NodeKeys(t)[i] < NodeKeys(t)[j] {
      if t.Leaf? { assert Entries(t.items)[i].key < Entries(t.items)[j].key; } else { SepsAscend(t, i, j); }
    }
  }

  /** The binary search of mdb_node_search, over the keys from slot `first` on. */
  method SearchKeys(ks: seq<Key>, first: nat, k: Key) returns (i: nat, exact: bool)
    requires first <= |ks| && (first == 1 ==> |ks| > 1) && first <= 1
    requires forall x, y :: first <= x < y < |ks| ==> ks[x] < ks[y]
    ensures first <= i <= |ks| && exact == (i < |ks| && ks[i] == k)
    ensures forall j :: first <= j < i ==> ks[j] < k
    ensures forall j :: i <= j < |ks| ==> k <= ks[j]
  {
    var low, high: int := first, |ks| - 1;
    var rc := 0;
    i := 0;
    while low <= high
      invariant first <= low <= high + 1 <= |ks|
      invariant forall j :: first <= j < low ==> ks[j] < k
      invariant forall j :: high < j < |ks| ==> k < ks[j]
      invariant rc == 0 ==> i == 0 && low == first && high == |ks| - 1
      invariant rc > 0 ==> i + 1 == low
      invariant rc < 0 ==> i == high + 1
    {
      i := (low + high) / 2;
      rc := if k < ks[i] then -1 else if k > ks[i] then 1 else 0;
      if rc == 0 { break; }
      if rc > 0 { low := i + 1; } else { high := i - 1; }
    }
    if rc > 0 { i := i + 1; }
    exact := rc == 0 && |ks| > 0;
  }

  /** mdb_node_search: the smallest entry not below the key, if any, and whether it is exact. */
  method NodeSearch(t: Tree, k: Key) returns (i: nat, exact: bool)
    requires t.Leaf? ==> Ascending(Entries(t.items))
    requires t.Branch? ==> Sorted(t)
    ensures t.Leaf? ==> i == Position(t.items, k) && exact == (i < |t.items| && t.items[i].key == k)
    ensures t.Branch? ==> 0 < i <= |t.kids| && ChildAt(t.kids, k) == if exact then i else i - 1
    ensures t.Branch? ==> exact == (i < |t.kids| && t.kids[i].sep.key == k)
  {
    KeysAscend(t);
    ghost var ks := NodeKeys(t);
    i, exact := SearchKeys(NodeKeys(t), if t.Leaf? then 0 else 1, k);
    if t.Leaf? {
      assert forall j :: 0 <= j < i ==> t.items[j].key == ks[j];
      PositionIs(t.items, k, i);
    } else {
      assert forall j :: 0 < j < |t.kids| ==> t.kids[j].sep.key == ks[j];
      assert exact ==> forall j :: i < j < |ks| ==> ks[i] < ks[j];
      ChildAtIs(t.kids, k, if exact then i else i - 1);
    }
  }

  // ---- What a descent finds ------------------------------------------------------------------

  /** Everything left of the child a key belongs under is below the key, everything right above. */
  lemma ChildDivides(t: Tree, k: Key)
    requires t.Branch? && Sorted(t)
    ensures var i := ChildAt(t.kids, k);
            && Below(FlatKids(t.kids[..i]), k)
            && AtLeast(FlatKids(t.kids[i + 1..]), k + 1)
  {
    var kids, i := t.kids, ChildAt(t.kids, k);
    var a, c := kids[..i], kids[i + 1..];
    forall j | 0 <= j < |a| ensures Below(Flat(a[j].sub), k) {
      assert a[j] == kids[j] && Below(Flat(kids[j].sub), kids[i].sep.key);
    }
    forall j | 0 <= j < |c| ensures AtLeast(Flat(c[j].sub), k + 1) {
      assert c[j] == kids[i + 1 + j] && AtLeast(Flat(kids[i + 1 + j].sub), kids[i + 1].sep.key);
    }
    KidsBound(a, k);
    KidsBound(c, k + 1);
  }

  datatype Found = Missing | Found(val: Val)

  /** The value a sequence of bindings gives a key. */
  function Lookup(es: seq<Entry>, k: Key): Found {
    if es == [] then Missing
    else if es[0].key == k then Found(es[0].val)
    else Lookup(es[1..], k)
  }

  lemma {:induction false} LookupOutside(es: seq<Entry>, k: Key)
    requires Below(es, k) || AtLeast(es, k + 1)
    ensures Lookup(es, k) == Missing
  {
    if es != [] { LookupOutside(es[1..], k); }
  }

  lemma {:induction false} LookupAppend(a: seq<Entry>, b: seq<Entry>, k: Key)
    ensures Lookup(a + b, k) == if Lookup(a, k) != Missing then Lookup(a, k) else Lookup(b, k)
  {
    if a == [] {
      assert a + b == b;
    } else {
      assert (a + b)[0] == a[0] && (a + b)[1..] == a[1..] + b;
      LookupAppend(a[1..], b, k);
    }
  }

  /** A lookup in a branch is a lookup in the child the key belongs under. */
  lemma LookupChild(t: Tree, k: Key)
    requires t.Branch? && Sorted(t)
    ensures Lookup(Flat(t), k) == Lookup(Flat(t.kids[ChildAt(t.kids, k)].sub), k)
  {
    var i := ChildAt(t.kids, k);
    var a, b, c := FlatKids(t.kids[..i]), Flat(t.kids[i].sub), FlatKids(t.kids[i + 1..]);
    ChildDivides(t, k);
    FlatSplit(t.kids, i);
    LookupOutside(a, k);
    LookupOutside(c, k);
    LookupAppend(a + b, c, k);
    LookupAppend(a, b, k);
  }

  lemma {:induction false} LookupItems(items: seq<Item>, k: Key)
    requires Ascending(Entries(items))
    ensures var i := Position(items, k);
            Lookup(Entries(items), k) ==
            if i < |items| && items[i].key == k then Found(items[i].val) else Missing
  {
    var es := Entries(items);
    if items != [] {
      assert es[1..] == Entries(items[1..]);
      if items[0].key < k {
        LookupItems(items[1..], k);
      } else if items[0].key > k {
        assert forall j :: 0 <= j < |es| ==> es[0].key <= es[j].key;
        LookupOutside(es, k);
      }
    }
  }

  /** mdb_page_search_root down to a leaf, then mdb_node_search there (mdb_get). */
  method Get(root: Tree, k: Key) returns (r: Found)
    requires Sorted(root)
    ensures r == Lookup(Flat(root), k)
  {
    var mp := root;
    while mp.Branch?
      invariant Sorted(mp) && Lookup(Flat(mp), k) == Lookup(Flat(root), k)
      decreases mp
    {
      var i, exact := NodeSearch(mp, k);
      if !exact { i := i - 1; }
      LookupChild(mp, k);
      var kid := mp.kids[i];
      assert kid.sub < kid;
      mp := kid.sub;
    }
    var i, exact := NodeSearch(mp, k);
    LookupItems(mp.items, k);
    r := if exact then Found(mp.items[i].val) else Missing;
  }
}
