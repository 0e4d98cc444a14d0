/** mdb_node_add, mdb_node_del and mdb_update_key on the bytes and slots of a page. */
module PageNodes {
  import opened SlottedPage
  import BTree

  /** What the slots are after each operation, computed by the loops over mp_ptrs. */
  method InsertSlot(ptrs: array<nat>, n: nat, indx: nat, ofs: nat)
    requires indx <= n < ptrs.Length
    modifies ptrs
    ensures ptrs[..n + 1] == With<nat>(old(ptrs[..n]), indx, ofs)
  {
    ghost var ps := ptrs[..n];
    var i := n;
    while i > indx
      invariant indx <= i <= n
      invariant forall j :: 0 <= j < i ==> ptrs[j] == ps[j]
      invariant forall j :: i < j <= n ==> ptrs[j] == ps[j - 1]
    {
      ptrs[i] := ptrs[i - 1];
      i := i - 1;
    }
    ptrs[indx] := ofs;
    assert ptrs[..n + 1] == ps[..indx] + [ofs] + ps[indx..];
  }

  method RemoveSlot(ptrs: array<nat>, n: nat, indx: nat, sz: nat)
    requires indx < n <= ptrs.Length
    modifies ptrs
    ensures ptrs[..n - 1] == Closed(old(ptrs[..n]), indx, sz)
  {
    hide Closed;
    ghost var ps := ptrs[..n];
    var ptr := ptrs[indx];
    var i, j := 0, 0;
    while i < n
      invariant 0 <= i <= n && j == if i <= indx then i else i - 1
      invariant forall k :: i <= k < n ==> ptrs[k] == ps[k]
      invariant forall k :: 0 <= k < j ==> ptrs[k] == Raised(ps, indx, sz, k)
    {
      if i != indx {
        ptrs[j] := ptrs[i];
        if ptrs[j] < ptr { ptrs[j] := ptrs[j] + sz; }
        j := j + 1;
      }
      i := i + 1;
    }
    assert forall k :: 0 <= k < n - 1 ==> Closed(ps, indx, sz)[k] == Raised(ps, indx, sz, k);
  }

  function Raised(ps: seq<nat>, indx: nat, sz: nat, k: nat): nat
    requires indx < |ps| && k < |ps| - 1
  {
    var p := ps[if k < indx then k else k + 1];
    if p < ps[indx] then p + sz else p
  }

  method LowerSlots(ptrs: array<nat>, n: nat, indx: nat, delta: int)
    requires indx < n <= ptrs.Length && forall j :: 0 <= j < n ==> delta <= ptrs[j]
    modifies ptrs
    ensures ptrs[..n] == Lowered(old(ptrs[..n]), indx, delta)
  {
    ghost var ps := ptrs[..n];
    var ptr := ptrs[indx];
    var i := 0;
    while i < n
      invariant 0 <= i <= n
      invariant forall k :: i <= k < n ==> ptrs[k] == ps[k]
      invariant forall k :: 0 <= k < i ==> ptrs[k] == Lowered(ps, indx, delta)[k]
    {
      if ptrs[i] <= ptr { ptrs[i] := ptrs[i] - delta; }
      i := i + 1;
    }
  }

  method MoveBytes(bytes: array<Byte>, from: nat, to: nat, len: nat)
    requires from + len <= bytes.Length && to + len <= bytes.Length
    modifies bytes
    ensures bytes[..] == Shifted(old(bytes[..]), from, to, len)
  {
    forall x | 0 <= x < len { bytes[to + x] := bytes[from + x]; }
  }

  method CopyBytes(bytes: array<Byte>, at: nat, s: seq<Byte>)
    requires at + |s| <= bytes.Length
    modifies bytes
    ensures bytes[at..at + |s|] == s
    ensures forall x :: 0 <= x < at || at + |s| <= x < bytes.Length ==> bytes[x] == old(bytes[x])
  {
    forall x | 0 <= x < |s| { bytes[at + x] := s[x]; }
  }

  /** The page number of an overflow page, as the node's data. */
  function PgnoBytes(pg: nat): (r: seq<Byte>)
    requires pg < 0x1_0000_0000_0000_0000
    ensures |r| == 8
  {
    var a := pg / 0x1_0000;
    var b := a / 0x1_0000;
    Bytes2(pg % 0x1_0000) + Bytes2(a % 0x1_0000) + Bytes2(b % 0x1_0000) + Bytes2(b / 0x1_0000)
  }

  /** The node mdb_node_add writes on a leaf; data that is too large goes to overflow page `pg`. */
  function LeafNode(key: seq<Byte>, data: seq<Byte>, nodemax: nat, pg: nat): seq<Byte>
    requires |key| < 0x1_0000 && |data| < 0x1_0000_0000 && pg < 0x1_0000_0000_0000_0000
  {
    if NODE_HEADER + |key| + |data| > nodemax then Encode(|data|, F_BIGDATA, key, PgnoBytes(pg))
    else Encode(|data|, 0, key, data)
  }

  /** The node mdb_node_add writes on a branch: 48 bits of the child's page number, and the key. */
  function BranchNode(key: seq<Byte>, pg: nat): seq<Byte>
    requires |key| < 0x1_0000 && pg < 0x1_0000_0000_0000
  {
    Encode(pg % 0x1_0000_0000, pg / 0x1_0000_0000, key, [])
  }

  lemma {:induction false} LeafNodeMeasured(key: seq<Byte>, data: seq<Byte>, nodemax: nat, pg: nat)
    requires |key| < 0x1_0000 && |data| < 0x1_0000_0000 && pg < 0x1_0000_0000_0000_0000
    ensures Measured(LeafNode(key, data, nodemax, pg), true)
  {
    if NODE_HEADER + |key| + |data| > nodemax {
      Decodes(|data|, F_BIGDATA, key, PgnoBytes(pg));
    } else {
      Decodes(|data|, 0, key, data);
    }
  }

  lemma {:induction false} BranchNodeMeasured(key: seq<Byte>, pg: nat)
    requires |key| < 0x1_0000 && pg < 0x1_0000_0000_0000
    ensures Measured(BranchNode(key, pg), false)
  {
    Decodes(pg % 0x1_0000_0000, pg / 0x1_0000_0000, key, []);
  }

  /** A number stored in eight bytes, the low one first. */
  function U64(b: seq<Byte>): nat
    requires |b| == 8
  {
    U16(b, 0) + 0x1_0000 * U16(b, 2) + 0x1_0000_0000 * U16(b, 4) + 0x1_0000_0000_0000 * U16(b, 6)
  }

  /**
   What is read back from a leaf node: the length of the key and the key, the size of the data, and
   the data itself, or if the node would take too much a flag and the number of its overflow page.
   */
  lemma {:induction false} LeafNodeReads(key: seq<Byte>, data: seq<Byte>, nodemax: nat, pg: nat)
    requires |key| < 0x1_0000 && |data| < 0x1_0000_0000 && pg < 0x1_0000_0000_0000_0000
    ensures var r := LeafNode(key, data, nodemax, pg);
            && |r| >= 8 + |key| && U16(r, 6) == |key| && r[8..8 + |key|] == key && U16(r, 0) + 0x1_0000 * U16(r, 2) == |data|
            && if 8 + |key| + |data| > nodemax then U16(r, 4) == 1 && |r| == 8 + |key| + 8 && U64(r[8 + |key|..]) == pg
               else U16(r, 4) == 0 && r[8 + |key|..] == data
  {
    hide U16, Bytes2, PgnoBytes, U64, Encode;
    PgnoReads(pg);
    if NODE_HEADER + |key| + |data| > nodemax {
      Decodes(|data|, F_BIGDATA, key, PgnoBytes(pg));
    } else {
      Decodes(|data|, 0, key, data);
    }
  }

  /** What is read back from a branch node: the key, and NODEPGNO, whose high half is where a leaf has its flags. */
  lemma {:induction false} BranchNodeReads(key: seq<Byte>, pg: nat)
    requires |key| < 0x1_0000 && pg < 0x1_0000_0000_0000
    ensures var r := BranchNode(key, pg);
            && |r| == 8 + |key| && U16(r, 6) == |key| && r[8..] == key
            && U16(r, 0) + 0x1_0000 * U16(r, 2) + 0x1_0000_0000 * U16(r, 4) == pg
  {
    hide U16, Bytes2;
    Decodes(pg % 0x1_0000_0000, pg / 0x1_0000_0000, key, []);
    var r := BranchNode(key, pg);
    assert r[8..] == r[8..8 + |key|];
  }

  lemma {:induction false} PgnoReads(pg: nat)
    requires pg < 0x1_0000_0000_0000_0000
    ensures U64(PgnoBytes(pg)) == pg
  {
    hide Bytes2, U16;
    var a := pg / 0x1_0000;
    var b := a / 0x1_0000;
    FourWords(pg % 0x1_0000, a % 0x1_0000, b % 0x1_0000, b / 0x1_0000);
    assert pg == pg % 0x1_0000 + 0x1_0000 * a && a == a % 0x1_0000 + 0x1_0000 * b && b == b % 0x1_0000 + 0x1_0000 * (b / 0x1_0000);
  }

  lemma FourWords(a: nat, b: nat, c: nat, d: nat)
    requires a < 0x1_0000 && b < 0x1_0000 && c < 0x1_0000 && d < 0x1_0000
    ensures var r := Bytes2(a) + Bytes2(b) + Bytes2(c) + Bytes2(d);
            |r| == 8 && U16(r, 0) == a && U16(r, 2) == b && U16(r, 4) == c && U16(r, 6) == d
  {
  }

  /** The byte moves of mdb_update_key. */
  method RekeyBytes(bytes: array<Byte>, upper: nat, ptr: nat, key: seq<Byte>)
    requires ptr + NODE_HEADER <= bytes.Length && upper <= ptr && |key| < 0x1_0000
    requires var delta := Delta(bytes[..], ptr, key);
             delta <= upper && ptr - delta + NODE_HEADER + |key| <= bytes.Length
    modifies bytes
    ensures Rekeying(old(bytes[..]), upper, ptr, key, bytes[..])
  {
    hide Rekeying, Shifted, Delta;
    ghost var b := bytes[..];
    var delta := Delta(bytes[..], ptr, key);
    MoveBytes(bytes, upper, upper - delta, ptr - upper + NODE_HEADER);
    ghost var moved := bytes[..];
    CopyBytes(bytes, ptr - delta + 6, Bytes2(|key|));
    ghost var sized := bytes[..];
    assert bytes[ptr - delta + 6..ptr - delta + 8] == Bytes2(|key|);
    CopyBytes(bytes, ptr - delta + NODE_HEADER, key);
    RekeyingDone(b, upper, ptr, key, moved, sized, bytes[..]);
  }

  lemma RekeyingDone(b: seq<Byte>, upper: nat, o: nat, key: seq<Byte>, moved: seq<Byte>, sized: seq<Byte>, b': seq<Byte>)
    requires o + NODE_HEADER <= |b| && upper <= o && |key| < 0x1_0000 && |b'| == |b| == |sized|
    requires var delta := Delta(b, o, key);
      && delta <= upper && o - delta + NODE_HEADER + |key| <= |b|
      && moved == Shifted(b, upper, upper - delta, o - upper + NODE_HEADER)
      && sized[o - delta + 6..o - delta + 8] == Bytes2(|key|)
      && b'[o - delta + NODE_HEADER..o - delta + NODE_HEADER + |key|] == key
      && (forall x :: 0 <= x < o - delta + 6 || o - delta + 8 <= x < |b| ==> sized[x] == moved[x])
      && forall x :: 0 <= x < o - delta + NODE_HEADER || o - delta + NODE_HEADER + |key| <= x < |b| ==> b'[x] == sized[x]
    ensures Rekeying(b, upper, o, key, b')
  {
    var q: nat := o - Delta(b, o, key);
    var k := sized[q + 6..q + 8];
    assert b'[q + 6] == sized[q + 6] == k[0] && b'[q + 7] == sized[q + 7] == k[1];
    forall x | upper <= x < o + 6 ensures b'[x - Delta(b, o, key)] == b[x] {
      assert b'[x - Delta(b, o, key)] == sized[x - Delta(b, o, key)] == moved[x - Delta(b, o, key)];
    }
    forall x | q + NODE_HEADER + Even(|key|) <= x < |b| ensures b'[x] == b[x] {
      assert b'[x] == sized[x] == moved[x];
    }
  }

  class Page {
    const leaf: bool
    const bytes: array<Byte>
    /** mp_ptrs; the header and the slots take the bytes below mp_lower. */
    const ptrs: array<nat>
    var lower: nat
    var upper: nat

    function NumKeys(): nat
      reads this
    {
      if lower < HEADER then 0 else (lower - HEADER) / 2
    }

    function SizeLeft(): int
      reads this
    {
      upper - lower
    }

    ghost predicate Valid()
      reads this, bytes, ptrs
    {
      && HEADER <= lower <= upper <= bytes.Length && lower % 2 == 0
      && HEADER + 2 * ptrs.Length == bytes.Length
      && HeapOk(bytes[..], ptrs[..NumKeys()], upper, leaf)
    }

    /** The nodes of the page, in slot order. */
    ghost function Content(): seq<seq<Byte>>
      reads this, bytes, ptrs
      requires Valid()
    {
      Nodes(bytes[..], ptrs[..NumKeys()], leaf)
    }

    /** mdb_page_new */
    constructor (psize: nat, leaf: bool)
      requires psize % 2 == 0 && HEADER <= psize
      ensures Valid() && Content() == [] && bytes.Length == psize && this.leaf == leaf
      ensures fresh(bytes) && fresh(ptrs)
    {
      this.leaf := leaf;
      bytes := new Byte[psize](_ => 0);
      ptrs := new nat[(psize - HEADER) / 2];
      lower, upper := HEADER, psize;
    }

    /** mdb_node_add: false if there is no room (MDB_PAGE_FULL). */
    method Add(indx: nat, node: seq<Byte>) returns (ok: bool)
      requires Valid() && indx <= NumKeys() && Measured(node, leaf)
      modifies this, bytes, ptrs
      ensures Valid()
      ensures ok <==> Even(|node|) + 2 <= old(SizeLeft())
      ensures !ok ==> unchanged(this) && unchanged(bytes) && unchanged(ptrs)
      ensures ok ==> Content() == With(old(Content()), indx, node)
      ensures ok ==> SizeLeft() == old(SizeLeft()) - Even(|node|) - 2 && lower == old(lower) + 2
    {
      hide HeapOk, Measured, Layout, Nodes, With;
      var room := SizeLeft() - 2;
      if Even(|node|) > room { return false; }
      ghost var b, ps := bytes[..], ptrs[..NumKeys()];
      var n := NumKeys();
      var ofs := upper - Even(|node|);
      InsertSlot(ptrs, n, indx, ofs);
      CopyBytes(bytes, ofs, node);
      ghost var qs, b' := ptrs[..n + 1], bytes[..];
      Added(b, ps, upper, leaf, indx, node, b');
      upper, lower := ofs, lower + 2;
      assert NumKeys() == n + 1 && ptrs[..NumKeys()] == qs && bytes[..] == b';
      return true;
    }

    /** mdb_node_del */
    method Del(indx: nat)
      requires Valid() && indx < NumKeys()
      modifies this, bytes, ptrs
      ensures Valid() && Content() == Without(old(Content()), indx)
      ensures lower == old(lower) - 2 && upper == old(upper) + Size(old(bytes[..]), old(ptrs[indx]), leaf)
    {
      hide HeapOk, Layout, Nodes, Size, Closed, Shifted, Without, Raw;
      ghost var b, ps := bytes[..], ptrs[..NumKeys()];
      assert ps[indx] == ptrs[indx];
      Deleted(b, ps, upper, leaf, indx);
      var n, ptr := NumKeys(), ptrs[indx];
      var sz := Size(bytes[..], ptr, leaf);
      RemoveSlot(ptrs, n, indx, sz);
      MoveBytes(bytes, upper, upper + sz, ptr - upper);
      ghost var qs, b' := ptrs[..n - 1], bytes[..];
      lower, upper := lower - 2, upper + sz;
      assert NumKeys() == n - 1 && ptrs[..NumKeys()] == qs && bytes[..] == b';
    }

    /** mdb_update_key of a branch node: false if the page has no room for the longer key. */
    method UpdateKey(indx: nat, key: seq<Byte>) returns (ok: bool)
      requires Valid() && !leaf && indx < NumKeys() && |key| < 0x1_0000
      modifies this, bytes, ptrs
      ensures Valid() && lower == old(lower)
      ensures |old(Content())[indx]| >= NODE_HEADER
      ensures ok <==> Even(|key|) as int - Even(|old(Content())[indx]| - NODE_HEADER) as int <= old(SizeLeft())
      ensures !ok ==> unchanged(this) && unchanged(bytes) && unchanged(ptrs)
      ensures ok ==> Content() == old(Content())[indx := Rekey(old(Content())[indx], key)]
      ensures ok ==> |Content()| == |old(Content())| && forall j :: 0 <= j < |Content()| && j != indx ==> Content()[j] == old(Content())[j]
      ensures ok ==> var node := Content()[indx];
                |node| == 8 + |key| && node[..6] == old(Content())[indx][..6] && U16(node, 6) == |key| && node[8..] == key
    {
      hide HeapOk, Layout, Nodes, Lowered, Shifted, Rekeying, Rekey, Raw, U16, Bytes2;
      ghost var b, ps, up := bytes[..], ptrs[..NumKeys()], upper;
      assert ps[indx] == ptrs[indx];
      var ptr := ptrs[indx];
      RekeyRoom(b, ps, upper, indx, key);
      var delta := Delta(bytes[..], ptr, key);
      if delta > 0 && SizeLeft() < delta { return false; }
      LowerAll(b, ps, upper, delta);
      LowerSlots(ptrs, NumKeys(), indx, delta);
      RekeyBytes(bytes, upper, ptr, key);
      upper := upper - delta;
      Rekeyed(b, ps, up, indx, key, bytes[..], ptrs[..NumKeys()]);
      RekeyIs(old(Content())[indx], key);
      return true;
    }
  }

  lemma RekeyIs(node: seq<Byte>, key: seq<Byte>)
    requires |node| >= NODE_HEADER && |key| < 0x1_0000
    ensures var r := Rekey(node, key); |r| == 8 + |key| && r[..6] == node[..6] && U16(r, 6) == |key| && r[8..] == key
  {
    var r := Rekey(node, key);
    assert r[6] == |key| % 0x100 && r[7] == |key| / 0x100;
  }

  lemma LowerAll(b: seq<Byte>, ps: seq<nat>, upper: nat, delta: int)
    requires HeapOk(b, ps, upper, false) && delta <= upper
    ensures forall j :: 0 <= j < |ps| ==> delta <= ps[j]
  {
    forall j | 0 <= j < |ps| ensures delta <= ps[j] { HeapAt(b, ps, upper, false, j); }
  }

  lemma RekeyRoom(b: seq<Byte>, ps: seq<nat>, upper: nat, i: nat, key: seq<Byte>)
    requires HeapOk(b, ps, upper, false) && i < |ps|
    ensures ps[i] + NODE_HEADER <= |b| && upper <= ps[i] && ps[i] + NODE_HEADER + Even(U16(b, ps[i] + 6)) <= |b|
    ensures ps[i] - Delta(b, ps[i], key) + NODE_HEADER + |key| <= |b|
    ensures |Raw(b, ps[i], false)| == NODE_HEADER + U16(b, ps[i] + 6)
    ensures Nodes(b, ps, false)[i] == Raw(b, ps[i], false)
  {
    HeapAt(b, ps, upper, false, i);
  }

  // ---- The sizes the tree counts with --------------------------------------------------------

  /** The bytes written for a leaf node are those BTree.LeafSize and BTree.ItemSize count, with the slot. */
  lemma {:induction false} LeafNodeSize(env: BTree.Env, k: BTree.Key, v: BTree.Val, key: seq<Byte>, data: seq<Byte>, pg: nat)
    requires env.Ok() && |key| == env.ksize(k) && |data| == v.size < 0x1_0000_0000 && pg < 0x1_0000_0000_0000_0000
    ensures Even(|LeafNode(key, data, env.NodeMax(), pg)|) + 2 == BTree.LeafSize(env, k, v)
    ensures BTree.NODE_HEADER + env.ksize(k) + v.size <= env.NodeMax() ==>
            LeafNode(key, data, env.NodeMax(), pg) == Encode(|data|, 0, key, data)
  {
  }

  lemma {:induction false} BranchNodeSize(env: BTree.Env, kid: BTree.Kid, key: seq<Byte>, pg: nat)
    requires env.Ok() && |key| == BTree.SepSize(env, kid.sep) && pg < 0x1_0000_0000_0000
    ensures Even(|BranchNode(key, pg)|) + 2 == BTree.KidSize(env, kid)
  {
  }
}
