/**
 Slotted pages: nodes are added at the low end of a heap that grows down from the end of the
 page, and slots that point to them grow up from the header (mdb_node_add, mdb_node_del,
 mdb_update_key; mdb.c:6709-6886, 7163-7229).
 */
module SlottedPage {
  import BTree

  type Byte = x: int | 0 <= x < 256

  const HEADER: nat := 16
  const NODE_HEADER: nat := 8
  const F_BIGDATA: nat := 1

  function Even(n: nat): nat { n + n % 2 }

  function U16(b: seq<Byte>, o: nat): nat
    requires o + 2 <= |b|
  {
    b[o] as int + 0x100 * b[o + 1] as int
  }

  function Bytes2(n: nat): seq<Byte>
    requires n < 0x1_0000
  {
    [n % 0x100, n / 0x100]
  }

  /** The length of the node at an offset (mn_ksize, and on a leaf mn_flags and the data size). */
  function Length(b: seq<Byte>, o: nat, leaf: bool): nat
    requires o + NODE_HEADER <= |b|
  {
    NODE_HEADER + U16(b, o + 6) +
    if !leaf then 0
    else if U16(b, o + 4) % 2 == F_BIGDATA then 8
    else U16(b, o) + 0x1_0000 * U16(b, o + 2)
  }

  /** The heap space of the node at an offset. */
  function Size(b: seq<Byte>, o: nat, leaf: bool): nat
    requires o + NODE_HEADER <= |b|
  {
    Even(Length(b, o, leaf))
  }

  ghost function Sizes(b: seq<Byte>, ps: seq<nat>, leaf: bool): (ns: seq<int>)
    requires forall i :: 0 <= i < |ps| ==> ps[i] + NODE_HEADER <= |b|
    ensures |ns| == |ps| && forall i :: 0 <= i < |ns| ==> ns[i] == Size(b, ps[i], leaf)
  {
    seq(|ps|, i requires 0 <= i < |ps| => Size(b, ps[i], leaf))
  }

  ghost predicate Inside(n: int, p: nat, upper: nat, end: nat) {
    upper <= p && p % 2 == 0 && NODE_HEADER <= n && p + n <= end
  }

  ghost predicate Apart(n: int, p: nat, m: int, q: nat) {
    p + n <= q || q + m <= p
  }

  /** Nodes of sizes `ns` at offsets `ps` lie between `upper` and the end, aligned and apart, and leave no gap. */
  ghost predicate Layout(ns: seq<int>, ps: seq<nat>, upper: nat, end: nat) {
    && |ns| == |ps| && end % 2 == 0 && upper % 2 == 0 && upper <= end
    && (forall i :: 0 <= i < |ps| ==> Inside(ns[i], ps[i], upper, end))
    && (forall i, j :: 0 <= i < j < |ps| ==> Apart(ns[i], ps[i], ns[j], ps[j]))
    && BTree.Sum(ns) == end - upper
  }

  ghost predicate HeapOk(b: seq<Byte>, ps: seq<nat>, upper: nat, leaf: bool) {
    (forall i :: 0 <= i < |ps| ==> ps[i] + NODE_HEADER <= |b|) && Layout(Sizes(b, ps, leaf), ps, upper, |b|)
  }

  /** The node at an offset: header, key and data. */
  ghost function Raw(b: seq<Byte>, o: nat, leaf: bool): seq<Byte> {
    if o + NODE_HEADER <= |b| && o + Length(b, o, leaf) <= |b| then b[o..o + Length(b, o, leaf)] else []
  }

  /** The nodes of a page, in slot order. */
  ghost function Nodes(b: seq<Byte>, ps: seq<nat>, leaf: bool): (ns: seq<seq<Byte>>)
    ensures |ns| == |ps| && forall i :: 0 <= i < |ns| ==> ns[i] == Raw(b, ps[i], leaf)
  {
    seq(|ps|, i requires 0 <= i < |ps| => Raw(b, ps[i], leaf))
  }

  /** A node that was carried to another place, byte by byte, is the same node. */
  lemma Carried(b: seq<Byte>, o: nat, b': seq<Byte>, o': nat, leaf: bool)
    requires o + NODE_HEADER <= |b| && o + Size(b, o, leaf) <= |b| && o' + Size(b, o, leaf) <= |b'|
    requires forall x :: o <= x < o + Size(b, o, leaf) ==> b'[x - o + o'] == b[x]
    ensures o' + NODE_HEADER <= |b'| && Size(b', o', leaf) == Size(b, o, leaf) && Raw(b', o', leaf) == Raw(b, o, leaf)
  {
    assert forall x {:trigger b[o + x]} :: 0 <= x < Size(b, o, leaf) ==> b'[o' + x] == b[o + x];
    assert b'[o' + 6] == b[o + 6] && b'[o' + 7] == b[o + 7] && b'[o' + 4] == b[o + 4] && b'[o' + 5] == b[o + 5];
    assert b'[o'] == b[o] && b'[o' + 1] == b[o + 1] && b'[o' + 2] == b[o + 2] && b'[o' + 3] == b[o + 3];
  }

  // ---- Layouts -------------------------------------------------------------------------------

  function Without<T>(s: seq<T>, i: nat): seq<T>
    requires i < |s|
  {
    s[..i] + s[i + 1..]
  }

  function With<T>(s: seq<T>, i: nat, x: T): seq<T>
    requires i <= |s|
  {
    s[..i] + [x] + s[i..]
  }

  lemma {:induction false} SumWith(ns: seq<int>, i: nat, n: int)
    requires i <= |ns|
    ensures BTree.Sum(With(ns, i, n)) == BTree.Sum(ns) + n
  {
    BTree.SumAppend(ns[..i] + [n], ns[i..]);
    BTree.SumAppend(ns[..i], [n]);
    BTree.SumAppend(ns[..i], ns[i..]);
    assert ns[..i] + ns[i..] == ns && [n][1..] == [];
  }

  lemma {:induction false} SumWithout(ns: seq<int>, i: nat)
    requires i < |ns|
    ensures BTree.Sum(Without(ns, i)) == BTree.Sum(ns) - ns[i]
  {
    SumWith(Without(ns, i), i, ns[i]);
    assert With(Without(ns, i), i, ns[i]) == ns;
  }

  /** The offsets after node i is gone: those below it move up over its space. */
  function Closed(ps: seq<nat>, i: nat, sz: nat): (qs: seq<nat>)
    requires i < |ps|
    ensures |qs| == |ps| - 1
    ensures forall j :: 0 <= j < |qs| ==> var p := ps[if j < i then j else j + 1]; qs[j] == if p < ps[i] then p + sz else p
  {
    seq(|ps| - 1, j requires 0 <= j < |ps| - 1 => var p := ps[if j < i then j else j + 1]; if p < ps[i] then p + sz else p)
  }

  /** Any two nodes are apart. */
  lemma TwoApart(ns: seq<int>, ps: seq<nat>, upper: nat, end: nat, i: nat, j: nat)
    requires Layout(ns, ps, upper, end) && i < |ps| && j < |ps|
    ensures Inside(ns[i], ps[i], upper, end) && Inside(ns[j], ps[j], upper, end)
    ensures i != j ==> Apart(ns[i], ps[i], ns[j], ps[j])
  {
    if i > j { assert Apart(ns[j], ps[j], ns[i], ps[i]); }
  }

  lemma {:induction false} ClosedPair(ns: seq<int>, ps: seq<nat>, upper: nat, end: nat, i: nat, j: nat, k: nat)
    requires Layout(ns, ps, upper, end) && |ns| == |ps| && i < |ps| && ns[i] % 2 == 0 && j <= k < |ps| - 1
    ensures var ms, qs := Without(ns, i), Closed(ps, i, ns[i]);
            Inside(ms[j], qs[j], upper + ns[i], end) && Inside(ms[k], qs[k], upper + ns[i], end) &&
            (j < k ==> Apart(ms[j], qs[j], ms[k], qs[k]))
  {
    hide Layout, BTree.Sum;
    var a, b := if j < i then j else j + 1, if k < i then k else k + 1;
    TwoApart(ns, ps, upper, end, i, a);
    TwoApart(ns, ps, upper, end, i, b);
    TwoApart(ns, ps, upper, end, a, b);
  }

  lemma {:induction false} LayoutClosed(ns: seq<int>, ps: seq<nat>, upper: nat, end: nat, i: nat)
    requires Layout(ns, ps, upper, end) && i < |ps| && |ns| == |ps| && ns[i] % 2 == 0
    ensures upper + ns[i] <= end && Layout(Without(ns, i), Closed(ps, i, ns[i]), upper + ns[i], end)
  {
    hide Layout, BTree.Sum, Inside, Apart, Closed, Without;
    SumWithout(ns, i);
    TwoApart(ns, ps, upper, end, i, i);
    LayoutParity(ns, ps, upper, end);
    InsideIs(ns[i], ps[i], upper, end);
    var ms, qs := Without(ns, i), Closed(ps, i, ns[i]);
    WithoutLength(ns, i);
    forall j | 0 <= j < |qs| ensures Inside(ms[j], qs[j], upper + ns[i], end) {
      ClosedPair(ns, ps, upper, end, i, j, j);
    }
    forall j, k | 0 <= j < k < |qs| ensures Apart(ms[j], qs[j], ms[k], qs[k]) {
      ClosedPair(ns, ps, upper, end, i, j, k);
    }
    LayoutOf(ms, qs, upper + ns[i], end);
  }

  lemma WithoutLength(ns: seq<int>, i: nat)
    requires i < |ns|
    ensures |Without(ns, i)| == |ns| - 1
  {
  }

  lemma InsideIs(n: int, p: nat, upper: nat, end: nat)
    requires Inside(n, p, upper, end)
    ensures 0 < n && upper + n <= end
  {
  }

  lemma LayoutParity(ns: seq<int>, ps: seq<nat>, upper: nat, end: nat)
    requires Layout(ns, ps, upper, end)
    ensures |ns| == |ps| && end % 2 == 0 && upper % 2 == 0 && upper <= end && BTree.Sum(ns) == end - upper
  {
  }

  lemma LayoutOf(ns: seq<int>, ps: seq<nat>, upper: nat, end: nat)
    requires |ns| == |ps| && end % 2 == 0 && upper % 2 == 0 && upper <= end && BTree.Sum(ns) == end - upper
    requires forall j :: 0 <= j < |ps| ==> Inside(ns[j], ps[j], upper, end)
    requires forall j, k :: 0 <= j < k < |ps| ==> Apart(ns[j], ps[j], ns[k], ps[k])
    ensures Layout(ns, ps, upper, end)
  {
  }

  lemma WithAt<T>(s: seq<T>, i: nat, x: T, j: nat)
    requires i <= |s| && j <= |s|
    ensures |With(s, i, x)| == |s| + 1
    ensures With(s, i, x)[j] == if j < i then s[j] else if j == i then x else s[j - 1]
  {
  }

  lemma {:induction false} WithPair(ns: seq<int>, ps: seq<nat>, upper: nat, end: nat, i: nat, sz: nat, j: nat, k: nat)
    requires Layout(ns, ps, upper, end) && |ns| == |ps| && i <= |ps| && NODE_HEADER <= sz <= upper && sz % 2 == 0
    requires j <= k <= |ps| && upper % 2 == 0 && upper <= end
    ensures var ms, qs := With<int>(ns, i, sz), With<nat>(ps, i, upper - sz);
            Inside(ms[j], qs[j], upper - sz, end) && (j < k ==> Apart(ms[j], qs[j], ms[k], qs[k]))
  {
    hide Layout, BTree.Sum, With;
    WithAt<int>(ns, i, sz, j);
    WithAt<int>(ns, i, sz, k);
    WithAt<nat>(ps, i, upper - sz, j);
    WithAt<nat>(ps, i, upper - sz, k);
    var a, b := if j < i then j else j - 1, if k < i then k else k - 1;
    if j != i && k != i { TwoApart(ns, ps, upper, end, a, b); }
    if j != i { TwoApart(ns, ps, upper, end, a, a); }
    if k != i { TwoApart(ns, ps, upper, end, b, b); }
  }

  lemma {:induction false} LayoutWith(ns: seq<int>, ps: seq<nat>, upper: nat, end: nat, i: nat, sz: nat)
    requires Layout(ns, ps, upper, end) && |ns| == |ps| && i <= |ps| && NODE_HEADER <= sz <= upper && sz % 2 == 0
    ensures Layout(With<int>(ns, i, sz), With<nat>(ps, i, upper - sz), upper - sz, end)
  {
    hide Layout, BTree.Sum, Inside, Apart, With;
    SumWith(ns, i, sz);
    LayoutParity(ns, ps, upper, end);
    var ms, qs := With<int>(ns, i, sz), With<nat>(ps, i, upper - sz);
    WithAt<int>(ns, i, sz, 0);
    WithAt<nat>(ps, i, upper - sz, 0);
    forall j | 0 <= j < |qs| ensures Inside(ms[j], qs[j], upper - sz, end) {
      WithPair(ns, ps, upper, end, i, sz, j, j);
    }
    forall j, k | 0 <= j < k < |qs| ensures Apart(ms[j], qs[j], ms[k], qs[k]) {
      WithPair(ns, ps, upper, end, i, sz, j, k);
    }
    LayoutOf(ms, qs, upper - sz, end);
  }

  /** The offsets after node i grew by delta: its own and those below it move down. */
  function Lowered(ps: seq<nat>, i: nat, delta: int): (qs: seq<int>)
    requires i < |ps|
    ensures |qs| == |ps| && forall j :: 0 <= j < |qs| ==> qs[j] == if ps[j] <= ps[i] then ps[j] - delta else ps[j]
  {
    seq(|ps|, j requires 0 <= j < |ps| => if ps[j] <= ps[i] then ps[j] - delta else ps[j])
  }

  lemma {:induction false} LoweredPair(ns: seq<int>, ps: seq<nat>, upper: nat, end: nat, i: nat, delta: int, qs: seq<nat>, j: nat, k: nat)
    requires Layout(ns, ps, upper, end) && |ns| == |ps| && i < |ps| && delta % 2 == 0 && delta <= upper && NODE_HEADER <= ns[i] + delta
    requires qs == Lowered(ps, i, delta) && j <= k < |ps|
    ensures var ms := ns[i := ns[i] + delta];
            0 <= upper - delta && Inside(ms[j], qs[j], upper - delta, end) && (j < k ==> Apart(ms[j], qs[j], ms[k], qs[k]))
  {
    hide Layout, BTree.Sum;
    TwoApart(ns, ps, upper, end, i, j);
    TwoApart(ns, ps, upper, end, i, k);
    TwoApart(ns, ps, upper, end, j, k);
  }

  lemma {:induction false} LayoutLowered(ns: seq<int>, ps: seq<nat>, upper: nat, end: nat, i: nat, delta: int, qs: seq<nat>)
    requires Layout(ns, ps, upper, end) && |ns| == |ps| && i < |ps| && delta % 2 == 0 && delta <= upper && NODE_HEADER <= ns[i] + delta
    requires qs == Lowered(ps, i, delta)
    ensures 0 <= upper - delta <= end && Layout(ns[i := ns[i] + delta], qs, upper - delta, end)
  {
    hide Layout, BTree.Sum, Inside, Apart, Lowered;
    SumWith(Without(ns, i), i, ns[i] + delta);
    SumWithout(ns, i);
    assert With(Without(ns, i), i, ns[i] + delta) == ns[i := ns[i] + delta];
    var ms := ns[i := ns[i] + delta];
    LayoutParity(ns, ps, upper, end);
    LoweredPair(ns, ps, upper, end, i, delta, qs, i, i);
    InsideIs(ms[i], qs[i], upper - delta, end);
    forall j | 0 <= j < |qs| ensures Inside(ms[j], qs[j], upper - delta, end) {
      LoweredPair(ns, ps, upper, end, i, delta, qs, j, j);
    }
    forall j, k | 0 <= j < k < |qs| ensures Apart(ms[j], qs[j], ms[k], qs[k]) {
      LoweredPair(ns, ps, upper, end, i, delta, qs, j, k);
    }
    LayoutOf(ms, qs, upper - delta, end);
  }

  // ---- Bytes ---------------------------------------------------------------------------------

  /** memmove within a page. */
  function Shifted(b: seq<Byte>, from: nat, to: nat, len: nat): (c: seq<Byte>)
    requires from + len <= |b| && to + len <= |b|
    ensures |c| == |b| && forall x :: 0 <= x < |c| ==> c[x] == if to <= x < to + len then b[x - to + from] else b[x]
  {
    seq(|b|, x requires 0 <= x < |b| => if to <= x < to + len then b[x - to + from] else b[x])
  }

  /** The two pages hold the same nodes, node by node, at the offsets given. */
  lemma {:induction false} SameNode(b: seq<Byte>, p: nat, b': seq<Byte>, q: nat, upper: nat, leaf: bool)
    requires p + NODE_HEADER <= |b| && Inside(Size(b, p, leaf), p, upper, |b|) && q + Size(b, p, leaf) <= |b'|
    requires forall x :: p <= x < p + Size(b, p, leaf) ==> b'[x - p + q] == b[x]
    ensures q + NODE_HEADER <= |b'| && Size(b', q, leaf) == Size(b, p, leaf) && Raw(b', q, leaf) == Raw(b, p, leaf)
  {
    Carried(b, p, b', q, leaf);
  }

  lemma HeapAt(b: seq<Byte>, ps: seq<nat>, upper: nat, leaf: bool, i: nat)
    requires HeapOk(b, ps, upper, leaf) && i < |ps|
    ensures ps[i] + NODE_HEADER <= |b| && Inside(Size(b, ps[i], leaf), ps[i], upper, |b|) && upper <= |b|
    ensures upper + Size(b, ps[i], leaf) <= |b|
    ensures forall j :: 0 <= j < |ps| ==> ps[j] + NODE_HEADER <= |b|
    ensures Layout(Sizes(b, ps, leaf), ps, upper, |b|)
  {
    assert Sizes(b, ps, leaf)[i] == Size(b, ps[i], leaf);
  }

  lemma HeapApart(b: seq<Byte>, ps: seq<nat>, upper: nat, leaf: bool, i: nat, j: nat)
    requires HeapOk(b, ps, upper, leaf) && i < |ps| && j < |ps| && i != j
    ensures ps[i] + NODE_HEADER <= |b| && ps[j] + NODE_HEADER <= |b|
    ensures Apart(Size(b, ps[i], leaf), ps[i], Size(b, ps[j], leaf), ps[j])
  {
    TwoApart(Sizes(b, ps, leaf), ps, upper, |b|, i, j);
  }

  /** Node j after node i was taken out and the nodes below it moved up. */
  lemma {:induction false} ClosedNode(b: seq<Byte>, ps: seq<nat>, upper: nat, leaf: bool, i: nat, j: nat)
    requires HeapOk(b, ps, upper, leaf) && i < |ps| && j < |ps| - 1
    requires ps[i] + NODE_HEADER <= |b| && upper <= ps[i] && upper + Size(b, ps[i], leaf) <= |b| && ps[i] + Size(b, ps[i], leaf) <= |b|
    ensures var sz, o := Size(b, ps[i], leaf), if j < i then j else j + 1;
            var b', q := Shifted(b, upper, upper + sz, ps[i] - upper), Closed(ps, i, sz)[j];
            ps[o] + NODE_HEADER <= |b| && q + NODE_HEADER <= |b| &&
            Size(b', q, leaf) == Size(b, ps[o], leaf) && Raw(b', q, leaf) == Raw(b, ps[o], leaf)
  {
    hide HeapOk, Size, Raw;
    var sz, o := Size(b, ps[i], leaf), if j < i then j else j + 1;
    HeapAt(b, ps, upper, leaf, o);
    HeapApart(b, ps, upper, leaf, i, o);
    var b', q := Shifted(b, upper, upper + sz, ps[i] - upper), Closed(ps, i, sz)[j];
    SameNode(b, ps[o], b', q, upper, leaf);
  }

  /** Taking node i out: the heap stays packed and the other nodes are as they were. */
  lemma {:induction false} Deleted(b: seq<Byte>, ps: seq<nat>, upper: nat, leaf: bool, i: nat)
    requires HeapOk(b, ps, upper, leaf) && i < |ps|
    ensures ps[i] + NODE_HEADER <= |b| && upper <= ps[i] && ps[i] + Size(b, ps[i], leaf) <= |b| && upper + Size(b, ps[i], leaf) <= |b|
    ensures var sz := Size(b, ps[i], leaf);
            var b', qs := Shifted(b, upper, upper + sz, ps[i] - upper), Closed(ps, i, sz);
            HeapOk(b', qs, upper + sz, leaf) && Nodes(b', qs, leaf) == Without(Nodes(b, ps, leaf), i)
  {
    hide Layout, Size, Raw, Shifted;
    HeapAt(b, ps, upper, leaf, i);
    var sz := Size(b, ps[i], leaf);
    var b', qs := Shifted(b, upper, upper + sz, ps[i] - upper), Closed(ps, i, sz);
    forall j | 0 <= j < |qs|
      ensures var o := if j < i then j else j + 1;
              ps[o] + NODE_HEADER <= |b| && qs[j] + NODE_HEADER <= |b'| &&
              Size(b', qs[j], leaf) == Size(b, ps[o], leaf) && Raw(b', qs[j], leaf) == Raw(b, ps[o], leaf)
    {
      ClosedNode(b, ps, upper, leaf, i, j);
    }
    SizeEven(b, ps[i], leaf);
    LayoutClosed(Sizes(b, ps, leaf), ps, upper, |b|, i);
    assert Sizes(b', qs, leaf) == Without(Sizes(b, ps, leaf), i);
  }

  lemma SizeEven(b: seq<Byte>, o: nat, leaf: bool)
    requires o + NODE_HEADER <= |b|
    ensures Size(b, o, leaf) % 2 == 0 && NODE_HEADER <= Length(b, o, leaf) <= Size(b, o, leaf)
  {
  }

  // ---- The encoding of a node ----------------------------------------------------------------

  /** Header, key and data: `word` is the data size, or the low half of a page number. */
  function Encode(word: nat, flags: nat, key: seq<Byte>, data: seq<Byte>): (r: seq<Byte>)
    requires word < 0x1_0000_0000 && flags < 0x1_0000 && |key| < 0x1_0000
    ensures |r| == NODE_HEADER + |key| + |data|
  {
    Bytes2(word % 0x1_0000) + Bytes2(word / 0x1_0000) + Bytes2(flags) + Bytes2(|key|) + key + data
  }

  /** What is read back from a node: NODEKSZ, NODEKEY, NODEDSZ, mn_flags and NODEDATA. */
  lemma {:induction false} Decodes(word: nat, flags: nat, key: seq<Byte>, data: seq<Byte>)
    requires word < 0x1_0000_0000 && flags < 0x1_0000 && |key| < 0x1_0000
    ensures var r := Encode(word, flags, key, data);
            && U16(r, 6) == |key| && U16(r, 4) == flags && U16(r, 0) + 0x1_0000 * U16(r, 2) == word
            && r[8..8 + |key|] == key && r[8 + |key|..] == data
  {
    var r := Encode(word, flags, key, data);
    assert r[0] == word % 0x1_0000 % 0x100 && r[1] == word % 0x1_0000 / 0x100;
    assert r[2] == word / 0x1_0000 % 0x100 && r[3] == word / 0x1_0000 / 0x100;
    assert r[4] == flags % 0x100 && r[5] == flags / 0x100;
    assert r[6] == |key| % 0x100 && r[7] == |key| / 0x100;
  }

  /** A node may be written if its own length fields give its length. */
  ghost predicate Measured(node: seq<Byte>, leaf: bool) {
    |node| >= NODE_HEADER && Length(node, 0, leaf) == |node|
  }

  /** Node j after a node was added at index i, below all others. */
  lemma {:induction false} AddedNode(b: seq<Byte>, ps: seq<nat>, upper: nat, leaf: bool, b': seq<Byte>, j: nat)
    requires HeapOk(b, ps, upper, leaf) && j < |ps| && |b'| == |b| && forall x :: upper <= x < |b| ==> b'[x] == b[x]
    ensures ps[j] + NODE_HEADER <= |b| && Size(b', ps[j], leaf) == Size(b, ps[j], leaf) && Raw(b', ps[j], leaf) == Raw(b, ps[j], leaf)
  {
    hide HeapOk, Size, Raw;
    HeapAt(b, ps, upper, leaf, j);
    SameNode(b, ps[j], b', ps[j], upper, leaf);
  }

  lemma {:induction false} NewNode(b': seq<Byte>, o: nat, node: seq<Byte>, leaf: bool)
    requires Measured(node, leaf) && o + Even(|node|) <= |b'| && b'[o..o + |node|] == node
    ensures Size(b', o, leaf) == Even(|node|) && Raw(b', o, leaf) == node
  {
    var n := b'[o..o + |node|];
    assert n[6] == b'[o + 6] && n[7] == b'[o + 7] && n[4] == b'[o + 4] && n[5] == b'[o + 5];
    assert n[0] == b'[o] && n[1] == b'[o + 1] && n[2] == b'[o + 2] && n[3] == b'[o + 3];
  }

  /** Writing a node below the heap: the heap stays packed and the other nodes are as they were. */
  lemma {:induction false} Added(b: seq<Byte>, ps: seq<nat>, upper: nat, leaf: bool, i: nat, node: seq<Byte>, b': seq<Byte>)
    requires HeapOk(b, ps, upper, leaf) && i <= |ps| && Measured(node, leaf) && Even(|node|) <= upper
    requires |b'| == |b| && forall x :: upper <= x < |b| ==> b'[x] == b[x]
    requires var o := upper - Even(|node|); o + |node| <= |b| && b'[o..o + |node|] == node
    ensures var o := upper - Even(|node|);
            var qs := With<nat>(ps, i, o);
            HeapOk(b', qs, o, leaf) && Nodes(b', qs, leaf) == With(Nodes(b, ps, leaf), i, node)
  {
    hide Layout, Size, Raw, Measured;
    var sz := Even(|node|);
    var o := upper - sz;
    var qs := With<nat>(ps, i, o);
    AtLeastHeader(node, leaf);
    LayoutParity(Sizes(b, ps, leaf), ps, upper, |b|);
    NewNode(b', o, node, leaf);
    forall j | 0 <= j < |ps|
      ensures ps[j] + NODE_HEADER <= |b| && Size(b', ps[j], leaf) == Size(b, ps[j], leaf) && Raw(b', ps[j], leaf) == Raw(b, ps[j], leaf)
    {
      AddedNode(b, ps, upper, leaf, b', j);
    }
    LayoutWith(Sizes(b, ps, leaf), ps, upper, |b|, i, sz);
    assert Sizes(b', qs, leaf) == With<int>(Sizes(b, ps, leaf), i, sz);
  }

  lemma AtLeastHeader(node: seq<Byte>, leaf: bool)
    requires Measured(node, leaf)
    ensures |node| >= NODE_HEADER
  {
  }

  // ---- Replacing the key of a branch node ----------------------------------------------------

  /** A branch node with another key: page number and flags stay. */
  function Rekey(node: seq<Byte>, key: seq<Byte>): (r: seq<Byte>)
    requires |node| >= NODE_HEADER && |key| < 0x1_0000
    ensures |r| == NODE_HEADER + |key|
  {
    node[..6] + Bytes2(|key|) + key
  }

  /** How much more heap a node takes with the new key. */
  function Delta(b: seq<Byte>, o: nat, key: seq<Byte>): int
    requires o + NODE_HEADER <= |b|
  {
    Even(|key|) as int - Even(U16(b, o + 6)) as int
  }

  /** The page after mdb_update_key: headers below moved by delta, the new key written. */
  ghost predicate Rekeying(b: seq<Byte>, upper: nat, o: nat, key: seq<Byte>, b': seq<Byte>) {
    && o + NODE_HEADER <= |b| && upper <= o && |key| < 0x1_0000
    && var delta := Delta(b, o, key);
       && delta <= upper && o - delta + NODE_HEADER + |key| <= |b| && |b'| == |b| && o - delta + NODE_HEADER <= |b|
       && (forall x :: upper <= x < o + 6 ==> b'[x - delta] == b[x])
       && b'[o - delta + 6] == |key| % 0x100 && b'[o - delta + 7] == |key| / 0x100
       && b'[o - delta + 8..o - delta + 8 + |key|] == key
       && (forall x :: o - delta + NODE_HEADER + Even(|key|) <= x < |b| ==> b'[x] == b[x])
  }

  /** A branch node in its parts. */
  lemma {:induction false} RawParts(b: seq<Byte>, o: nat)
    requires o + NODE_HEADER <= |b| && o + NODE_HEADER + U16(b, o + 6) <= |b|
    ensures Raw(b, o, false) == b[o..o + 6] + [b[o + 6], b[o + 7]] + b[o + 8..o + 8 + U16(b, o + 6)]
  {
  }

  /** The bytes of the node whose key was replaced. */
  lemma {:induction false} RekeyedBytes(b: seq<Byte>, upper: nat, o: nat, key: seq<Byte>, b': seq<Byte>)
    requires Rekeying(b, upper, o, key, b')
    ensures var q: nat := o - Delta(b, o, key);
            q + NODE_HEADER + |key| <= |b'| && U16(b', q + 6) == |key| && b'[q..q + 6] == b[o..o + 6] &&
            [b'[q + 6], b'[q + 7]] == Bytes2(|key|) && b'[q + 8..q + 8 + |key|] == key
  {
    var delta := Delta(b, o, key);
    var q: nat := o - delta;
    var head := b'[q..q + 6];
    assert forall x :: 0 <= x < 6 ==> head[x] == b[o + x];
  }

  lemma {:induction false} RekeyedNode(b: seq<Byte>, ps: seq<nat>, upper: nat, i: nat, key: seq<Byte>, b': seq<Byte>)
    requires HeapOk(b, ps, upper, false) && i < |ps| && Rekeying(b, upper, ps[i], key, b')
    ensures var delta := Delta(b, ps[i], key); var q: nat := ps[i] - delta;
            && ps[i] + NODE_HEADER <= |b| && q + NODE_HEADER <= |b'| && |Raw(b, ps[i], false)| >= NODE_HEADER
            && Size(b', q, false) == Size(b, ps[i], false) + delta
            && Raw(b', q, false) == Rekey(Raw(b, ps[i], false), key)
  {
    hide Layout, HeapOk, Raw, Rekeying, U16, Bytes2;
    HeapAt(b, ps, upper, false, i);
    RekeyingBounds(b, upper, ps[i], key, b');
    RekeyedBytes(b, upper, ps[i], key, b');
    RekeyedRaw(b, ps[i], b', ps[i] - Delta(b, ps[i], key), key);
  }

  /** A branch node that differs from another in its key only. */
  lemma RekeyedRaw(b: seq<Byte>, o: nat, b': seq<Byte>, q: nat, key: seq<Byte>)
    requires o + NODE_HEADER <= |b| && o + NODE_HEADER + U16(b, o + 6) <= |b| && |key| < 0x1_0000
    requires q + NODE_HEADER + |key| <= |b'| && U16(b', q + 6) == |key| && b'[q..q + 6] == b[o..o + 6]
    requires [b'[q + 6], b'[q + 7]] == Bytes2(|key|) && b'[q + 8..q + 8 + |key|] == key
    ensures |Raw(b, o, false)| >= NODE_HEADER && Raw(b', q, false) == Rekey(Raw(b, o, false), key)
  {
    hide Raw, U16, Bytes2;
    RawParts(b, o);
    RawParts(b', q);
    HeadOf(b[o..o + 6], Raw(b, o, false));
  }

  lemma HeadOf(h: seq<Byte>, s: seq<Byte>)
    requires h <= s
    ensures s[..|h|] == h
  {
  }

  lemma {:induction false} OtherNode(b: seq<Byte>, ps: seq<nat>, upper: nat, i: nat, key: seq<Byte>, b': seq<Byte>, j: nat)
    requires HeapOk(b, ps, upper, false) && i < |ps| && j < |ps| && j != i && Rekeying(b, upper, ps[i], key, b')
    ensures var delta := Delta(b, ps[i], key);
            && ps[j] + NODE_HEADER <= |b| && ps[i] + NODE_HEADER <= |b|
            && var q := if ps[j] <= ps[i] then ps[j] - delta else ps[j];
               0 <= q && q + NODE_HEADER <= |b'| && Size(b', q, false) == Size(b, ps[j], false) && Raw(b', q, false) == Raw(b, ps[j], false)
  {
    hide Layout, Raw, HeapOk, Rekeying, Size, Length;
    HeapAt(b, ps, upper, false, i);
    HeapAt(b, ps, upper, false, j);
    HeapApart(b, ps, upper, false, i, j);
    SizeEven(b, ps[i], false);
    SizeEven(b, ps[j], false);
    RekeyingBounds(b, upper, ps[i], key, b');
    RekeyingMoves(b, upper, ps[i], key, b', ps[j], Size(b, ps[j], false));
    var delta := Delta(b, ps[i], key);
    var q: nat := if ps[j] <= ps[i] then ps[j] - delta else ps[j];
    SameNode(b, ps[j], b', q, upper, false);
  }

  lemma RekeyingMoves(b: seq<Byte>, upper: nat, o: nat, key: seq<Byte>, b': seq<Byte>, p: nat, n: nat)
    requires Rekeying(b, upper, o, key, b') && p + n <= |b| && upper <= p && n > 0
    requires p + n <= o || o + Size(b, o, false) <= p
    ensures var q := if p <= o then p - Delta(b, o, key) else p;
            0 <= q && q + n <= |b'| && forall x :: p <= x < p + n ==> b'[x - p + q] == b[x]
  {
    hide U16;
    var delta := Delta(b, o, key);
    assert Size(b, o, false) == NODE_HEADER + Even(U16(b, o + 6));
    if p <= o {
      forall x | p <= x < p + n ensures b'[x - p + (p - delta)] == b[x] {
        assert upper <= x < o + 6 && x - p + (p - delta) == x - delta;
      }
    } else {
      forall x | p <= x < p + n ensures b'[x - p + p] == b[x] {
        assert o - delta + NODE_HEADER + Even(|key|) <= x < |b| && x - p + p == x;
      }
    }
  }

  /** Replacing a key: the heap stays packed, the node has the new key, the others are as they were. */
  lemma {:induction false} Rekeyed(b: seq<Byte>, ps: seq<nat>, upper: nat, i: nat, key: seq<Byte>, b': seq<Byte>, qs: seq<nat>)
    requires HeapOk(b, ps, upper, false) && i < |ps| && Rekeying(b, upper, ps[i], key, b')
    requires qs == Lowered(ps, i, Delta(b, ps[i], key))
    ensures 0 <= upper - Delta(b, ps[i], key) && HeapOk(b', qs, upper - Delta(b, ps[i], key), false)
    ensures |Raw(b, ps[i], false)| >= NODE_HEADER
    ensures Nodes(b', qs, false) == Nodes(b, ps, false)[i := Rekey(Raw(b, ps[i], false), key)]
  {
    hide Layout, Raw, Size, Rekeying;
    HeapAt(b, ps, upper, false, i);
    var delta := Delta(b, ps[i], key);
    RekeyingBounds(b, upper, ps[i], key, b');
    RekeyedNode(b, ps, upper, i, key, b');
    forall j | 0 <= j < |ps| && j != i
      ensures ps[j] + NODE_HEADER <= |b| && qs[j] + NODE_HEADER <= |b'| &&
              Size(b', qs[j], false) == Size(b, ps[j], false) && Raw(b', qs[j], false) == Raw(b, ps[j], false)
    {
      OtherNode(b, ps, upper, i, key, b', j);
    }
    SizeEven(b', qs[i], false);
    LayoutLowered(Sizes(b, ps, false), ps, upper, |b|, i, delta, qs);
    assert Sizes(b', qs, false) == Sizes(b, ps, false)[i := Sizes(b, ps, false)[i] + delta];
  }

  lemma RekeyingBounds(b: seq<Byte>, upper: nat, o: nat, key: seq<Byte>, b': seq<Byte>)
    requires Rekeying(b, upper, o, key, b')
    ensures o + NODE_HEADER <= |b| && Delta(b, o, key) <= upper && Delta(b, o, key) % 2 == 0 && |b'| == |b| && upper <= o
    ensures o - Delta(b, o, key) + NODE_HEADER <= |b| && |key| < 0x1_0000
  {
  }
}
