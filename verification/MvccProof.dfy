/** The invariant of the transaction state machine, and what it means for readers and crashes. */
module MvccProof {
  import opened Mvcc

  /** The pages of a version are closed under page links and lie below its next page. */
  ghost predicate WellFormed(v: Version) {
    && v.roots <= v.pages.Keys
    && (forall p :: p in v.pages ==> v.pages[p].kids <= v.pages.Keys && 2 <= p < v.next)
  }

  /** The file holds every page of the version as it was committed. */
  ghost predicate Intact(disk: map<Pgno, Page>, v: Version) {
    forall p :: p in v.pages ==> p in disk && disk[p] == v.pages[p]
  }

  ghost function FreePages(v: Version, after: TxnId): set<Pgno> {
    set r | r in Records(v.pages) && r.0 > after :: r.1
  }

  /** No page is listed in two records. */
  ghost predicate ListedOnce(recs: set<(TxnId, Pgno)>) {
    forall r, q :: r in recs && q in recs && r.1 == q.1 ==> r == q
  }

  /** A version's pages and its free-list records split pages 2 .. next - 1 between them. */
  ghost predicate Balanced(v: Version, id: TxnId) {
    var recs := Records(v.pages);
    && ListedOnce(recs) && 2 <= v.next
    && (forall r :: r in recs ==> 0 < r.0 <= id && r.1 !in v.pages)
    && (forall p :: p in v.pages || (exists r :: r in recs && r.1 == p) <==> 2 <= p < v.next)
  }

  /** Record t of version c holds only pages unreachable from live versions between t and c. */
  ghost predicate RecordsUnreachable(s: State, c: TxnId)
    requires c in s.versions
  {
    forall r, v: TxnId :: r in Records(s.versions[c].pages) && Live(s, v) && v in s.versions && r.0 <= v <= c ==>
      r.1 !in s.versions[v].pages
  }

  ghost predicate MetasOk(s: State) {
    && |s.metas| == 2 && s.lastTxn in s.versions
    && (forall v :: v in s.versions ==> v <= s.lastTxn || (Finishing(s) && v == s.writer.value.id))
    && s.metas[s.lastTxn % 2] == MetaOf(s, s.lastTxn)
    && var other := s.metas[(s.lastTxn + 1) % 2];
       if Finishing(s) then s.writer.value.id in s.versions && other == MetaOf(s, s.writer.value.id)
       else other.txnid < s.lastTxn || (s.lastTxn == 0 == other.txnid && other == s.metas[0])
  }

  ghost function MetaOf(s: State, v: TxnId): Meta
    requires v in s.versions
  {
    Meta(v, s.versions[v].roots, s.versions[v].next)
  }

  ghost predicate Finishing(s: State) {
    s.writer.Some? && s.writer.value.phase == MetaWritten
  }

  ghost predicate SlotsOk(s: State) {
    forall i :: 0 <= i < |s.slots| && ActiveReader(s.slots[i]) ==>
      var slot := s.slots[i];
      slot.txnid <= s.lastTxn && slot.txnid in s.versions && slot.view == MetaOf(s, slot.txnid)
  }

  /** The cached me_pgoldest is a lower bound on everything live. */
  ghost predicate OldestOk(s: State) {
    forall k, v :: k in s.oldest && Live(s, v) ==> s.oldest[k] <= v
  }

  ghost predicate LiveOk(s: State) {
    && s.lastTxn in s.versions
    && forall v: TxnId :: Live(s, v) ==>
      && v in s.versions && WellFormed(s.versions[v]) && Intact(s.disk, s.versions[v])
      && s.versions[v].pages.Keys !! s.unsynced
      && (v <= s.lastTxn ==> s.versions[v].next <= s.versions[s.lastTxn].next)
  }

  /** The newest committed version, and the one being published, are balanced. */
  ghost predicate NewestOk(s: State) {
    && s.lastTxn in s.versions
    && Balanced(s.versions[s.lastTxn], s.lastTxn) && RecordsUnreachable(s, s.lastTxn)
    && (Finishing(s) ==>
      var id := s.writer.value.id;
      && id in s.versions && Balanced(s.versions[id], id) && RecordsUnreachable(s, id)
      && s.versions[s.lastTxn].next <= s.versions[id].next)
  }

  /** Every page below `next` is in exactly one place (the claim mdb_audit checks). */
  ghost predicate Conserved(w: Txn, base: Version) {
    var rest := FreePages(base, w.pglast);
    && 2 <= w.next
    && w.tree !! w.head !! w.loose !! w.freed !! rest
    && (forall p :: p in w.tree || p in w.head || p in w.loose || p in w.freed || p in rest <==> 2 <= p < w.next)
  }

  /** The write transaction's own bookkeeping, relative to the version it started from. */
  ghost predicate TxnOk(w: Txn, base: Version, disk: map<Pgno, Page>) {
    && w.pglast < w.id && base.next <= w.next && w.roots <= w.tree && w.loose <= w.mine && w.mem.Keys <= w.mine + w.head
    && (forall p :: p in w.tree ==> p in w.mem || p in disk)
    && (forall p :: p in w.tree && p !in w.mine ==> p in base.pages && p !in w.mem)
    && (forall p :: p in View(w, disk) ==> View(w, disk)[p].kids <= w.tree)
    && KeptRecords(w, Records(View(w, disk))) == (set r | r in Records(base.pages) && r.0 > w.pglast)
    && Conserved(w, base)
    && (w.phase == Saved ==> FreelistSaved(w, Records(View(w, disk))))
  }

  /** Pages handed to the write transaction belong to no live version. */
  ghost predicate PoolOk(s: State, w: Txn) {
    forall v, p :: Live(s, v) && v in s.versions && (p in w.mine || p in w.head) ==> p !in s.versions[v].pages
  }

  ghost predicate WriterOk(s: State) {
    s.writer.Some? ==>
      && s.writer.value.id == s.lastTxn + 1
      && (s.writer.value.phase != MetaWritten ==>
        && s.lastTxn in s.versions
        && TxnOk(s.writer.value, s.versions[s.lastTxn], s.disk)
        && PoolOk(s, s.writer.value))
  }

  ghost predicate Inv(s: State) {
    MetasOk(s) && SlotsOk(s) && OldestOk(s) && LiveOk(s) && NewestOk(s) && WriterOk(s)
  }

  lemma InitInv(s: State)
    requires Init(s)
    ensures Inv(s)
  {
  }

  // ---- Steps of the write transaction on its own state ---------------------------------------

  /** A step that changes only the write transaction keeps everything shared. */
  lemma PrivateStep(s: State, s': State, w': Txn)
    requires Inv(s) && s.writer.Some? && s.writer.value.phase != MetaWritten
    requires s' == s.(writer := Some(w')) && w'.phase != MetaWritten && w'.id == s.writer.value.id
    requires TxnOk(w', s.versions[s.lastTxn], s.disk) && PoolOk(s, w')
    ensures Inv(s')
  {
    hide TxnOk, WellFormed, Intact, Balanced;
    assert forall v :: Live(s', v) <==> Live(s, v);
  }

  ghost predicate CanWrite(s: State) {
    Inv(s) && Writing(s)
  }

  ghost function Base(s: State): Version
    requires CanWrite(s)
  {
    s.versions[s.lastTxn]
  }

  lemma FetchRecordInv(s: State, s': State, t: TxnId)
    requires CanWrite(s) && DoFetchRecord(s, s', t)
    ensures Inv(s')
  {
    hide Intact, WellFormed, MetasOk, Conserved;
    var w := s.writer.value;
    var w' := s'.writer.value;
    var base := Base(s);
    var recs := Records(View(w, s.disk));
    assert Live(s, s.lastTxn);
    assert t < s.oldest[w.proc] <= s.lastTxn;
    var kept := KeptRecords(w, recs);
    assert View(w', s.disk) == View(w, s.disk);
    FetchedRecord(w, base, recs, t);
    FetchTxn(w, w', base, s.disk, recs, t);
    forall v: TxnId, p: Pgno | Live(s, v) && v in s.versions && (p in w'.mine || p in w'.head) ensures p !in s.versions[v].pages {
      if p !in w.mine && p !in w.head {
        assert (t, p) in Records(base.pages);
        assert t < s.oldest[w.proc] <= v;
      }
    }
    PrivateStep(s, s', w');
  }

  /** The record read through the transaction's own view is the committed one. */
  lemma FetchedRecord(w: Txn, base: Version, recs: set<(TxnId, Pgno)>, t: TxnId)
    requires KeptRecords(w, recs) == (set r | r in Records(base.pages) && r.0 > w.pglast)
    requires w.pglast < t < w.id
    ensures forall p :: (t, p) in recs <==> (t, p) in Records(base.pages)
    ensures (set r | r in recs && r.0 == t :: r.1) == (set r | r in Records(base.pages) && r.0 == t :: r.1)
    ensures KeptRecords(w.(pglast := t), recs) == (set r | r in Records(base.pages) && r.0 > t)
  {
    var b := set r | r in Records(base.pages) && r.0 > w.pglast;
    var k := KeptRecords(w, recs);
    assert forall r :: r in k <==> r in b;
    assert forall p :: (t, p) in recs <==> (t, p) in k;
    assert forall p :: (t, p) in Records(base.pages) <==> (t, p) in b;
    assert forall r :: r in KeptRecords(w.(pglast := t), recs) <==> r in k && r.0 > t;
  }

  lemma FetchTxn(w: Txn, w': Txn, base: Version, disk: map<Pgno, Page>, recs: set<(TxnId, Pgno)>, t: TxnId)
    requires TxnOk(w, base, disk) && w.phase == Active && recs == Records(View(w, disk)) && View(w', disk) == View(w, disk)
    requires ListedOnce(Records(base.pages))
    requires w.pglast < t < w.id
    requires forall r :: r in recs ==> !(w.pglast < r.0 < t)
    requires forall p :: (t, p) in recs <==> (t, p) in Records(base.pages)
    requires KeptRecords(w.(pglast := t), recs) == (set r | r in Records(base.pages) && r.0 > t)
    requires w' == w.(head := w.head + (set r | r in recs && r.0 == t :: r.1), pglast := t)
    ensures TxnOk(w', base, disk)
  {
    var was, now := FreePages(base, w.pglast), FreePages(base, t);
    var got := set r | r in recs && r.0 == t :: r.1;
    var b := set r | r in Records(base.pages) && r.0 > w.pglast;
    forall p ensures p in was <==> p in now || p in got {
      if p in was && p !in now {
        var r :| r in Records(base.pages) && r.0 > w.pglast && r.1 == p;
        assert r in b && r in KeptRecords(w, recs);
        assert r == (t, p);
      }
      if p in got { assert (t, p) in Records(base.pages); }
    }
    forall p | p in got ensures p !in now {
      assert (t, p) in Records(base.pages);
      assert forall r :: r in Records(base.pages) && r.1 == p ==> r == (t, p);
    }
  }

  /** Pages that were nowhere in the trees enter them. */
  lemma EnterView(w: Txn, ps: set<Pgno>, page: Page, disk: map<Pgno, Page>)
    requires ps !! w.tree
    ensures View(Enter(w, ps, page), disk) == View(w, disk) + map p | p in ps :: page
    ensures Records(View(Enter(w, ps, page), disk)) <= Records(View(w, disk)) + page.recs
    ensures Records(View(w, disk)) <= Records(View(Enter(w, ps, page), disk))
  {
    var v, v' := View(w, disk), View(Enter(w, ps, page), disk);
    assert v' == v + map p | p in ps :: page;
    forall r | r in Records(v) ensures r in Records(v') {
      var p :| p in v && r in v[p].recs;
      assert p in v' && v'[p] == v[p];
    }
  }

  lemma EnterTxn(w: Txn, ps: set<Pgno>, page: Page, base: Version, disk: map<Pgno, Page>, w': Txn)
    requires TxnOk(w, base, disk) && w.phase == Active && ps !! w.tree && MayHold(w, w.tree + ps, page)
    requires base.next <= w'.next && w'.freed == w.freed && w'.loose <= w.loose && w'.pglast == w.pglast
    requires ps <= w.head || w'.head == w.head
    requires w' == Enter(w, ps, page).(head := w'.head, next := w'.next, loose := w'.loose)
    requires w'.head == w.head - ps
    requires Conserved(w', base)
    ensures TxnOk(w', base, disk)
  {
    var e := Enter(w, ps, page);
    EnterView(w, ps, page, disk);
    assert View(w', disk) == View(e, disk);
    assert KeptRecords(w', Records(View(w', disk))) == KeptRecords(w, Records(View(w, disk)));
    forall p | p in View(w', disk) ensures View(w', disk)[p].kids <= w'.tree {
      if p !in ps { assert View(w', disk)[p] == View(w, disk)[p]; }
    }
  }

  lemma AllocFromHeadInv(s: State, s': State, ps: set<Pgno>, page: Page)
    requires CanWrite(s) && DoAllocFromHead(s, s', ps, page)
    ensures Inv(s')
  {
    hide Balanced, WellFormed, Intact, MetasOk, SlotsOk, OldestOk, LiveOk, NewestOk;
    EnterTxn(s.writer.value, ps, page, Base(s), s.disk, s'.writer.value);
    PrivateStep(s, s', s'.writer.value);
  }

  /** While the writer works, every live version lies below the pages it allocates afresh. */
  lemma LiveBelow(s: State, v: TxnId)
    requires CanWrite(s) && Live(s, v)
    ensures v in s.versions && v <= s.lastTxn
    ensures forall p :: p in s.versions[v].pages ==> p < Base(s).next <= s.writer.value.next
  {
    hide Balanced, Intact, MetasOk, OldestOk, NewestOk, Conserved;
  }

  lemma AllocNewInv(s: State, s': State, ps: set<Pgno>, n: nat, page: Page)
    requires CanWrite(s) && DoAllocNew(s, s', ps, n, page)
    ensures Inv(s')
  {
    hide LiveOk;
    hide Balanced, Intact, MetasOk, SlotsOk, OldestOk, NewestOk;
    var w := s.writer.value;
    assert forall p :: p in ps ==> p !in w.tree && p !in w.head && p !in w.loose && p !in w.freed && p !in FreePages(Base(s), w.pglast);
    EnterTxn(w, ps, page, Base(s), s.disk, s'.writer.value);
    forall v: TxnId, p: Pgno | Live(s, v) && v in s.versions && p in ps ensures p !in s.versions[v].pages {
      LiveBelow(s, v);
    }
    PrivateStep(s, s', s'.writer.value);
  }

  lemma AllocLooseInv(s: State, s': State, p: Pgno, page: Page)
    requires CanWrite(s) && DoAllocLoose(s, s', p, page)
    ensures Inv(s')
  {
    hide Balanced, WellFormed, Intact, MetasOk, SlotsOk, OldestOk, LiveOk, NewestOk;
    EnterTxn(s.writer.value, {p}, page, Base(s), s.disk, s'.writer.value);
    PrivateStep(s, s', s'.writer.value);
  }

  lemma RewriteInv(s: State, s': State, p: Pgno, page: Page)
    requires CanWrite(s) && DoRewrite(s, s', p, page)
    ensures Inv(s')
  {
    hide Balanced, WellFormed, Intact, MetasOk, SlotsOk, OldestOk, LiveOk, NewestOk;
    var w, w' := s.writer.value, s'.writer.value;
    assert View(w', s.disk) == View(w, s.disk)[p := page];
    PrivateStep(s, s', w');
  }

  lemma SetRootsInv(s: State, s': State, roots: set<Pgno>)
    requires CanWrite(s) && DoSetRoots(s, s', roots)
    ensures Inv(s')
  {
    hide Balanced, WellFormed, Intact, MetasOk, SlotsOk, OldestOk, LiveOk, NewestOk;
    assert View(s'.writer.value, s.disk) == View(s.writer.value, s.disk);
    PrivateStep(s, s', s'.writer.value);
  }

  /** Pages leave the trees for one of the three places free pages of a transaction can be. */
  lemma DropTxn(s: State, ps: set<Pgno>, w': Txn)
    requires CanWrite(s) && Unlinked(s, s.writer.value, ps)
    requires var w := s.writer.value;
      && w'.tree == w.tree - ps && w'.roots == w.roots && w'.next == w.next && w'.pglast == w.pglast && w'.id == w.id
      && w'.phase == Active && w'.loose <= w'.mine && w'.mem.Keys <= w'.mine + w'.head
      && w'.mine * w'.tree == w.mine * w'.tree && (forall p :: p in w'.tree ==> (p in w.mem <==> p in w'.mem) && (p in w.mem ==> w'.mem[p] == w.mem[p]))
    requires Conserved(w', Base(s))
    ensures TxnOk(w', Base(s), s.disk)
  {
    hide Balanced, WellFormed, Intact, MetasOk, SlotsOk, OldestOk, LiveOk, NewestOk;
    var w := s.writer.value;
    var rest := w.(tree := w.tree - ps);
    assert View(w', s.disk) == View(rest, s.disk);
    forall q | q in View(rest, s.disk) ensures View(rest, s.disk)[q].kids <= w'.tree {
      assert View(rest, s.disk)[q] == View(w, s.disk)[q];
    }
    assert forall p :: p in w'.tree && p !in w'.mine ==> p !in w'.mine * w'.tree;
  }

  lemma DropToFreedInv(s: State, s': State, p: Pgno)
    requires CanWrite(s) && DoDropToFreed(s, s', p)
    ensures Inv(s')
  {
    hide Balanced, WellFormed, Intact, MetasOk, SlotsOk, OldestOk, LiveOk, NewestOk;
    DropTxn(s, {p}, s'.writer.value);
    PrivateStep(s, s', s'.writer.value);
  }

  lemma DropToLooseInv(s: State, s': State, p: Pgno)
    requires CanWrite(s) && DoDropToLoose(s, s', p)
    ensures Inv(s')
  {
    hide Balanced, WellFormed, Intact, MetasOk, SlotsOk, OldestOk, LiveOk, NewestOk;
    DropTxn(s, {p}, s'.writer.value);
    PrivateStep(s, s', s'.writer.value);
  }

  lemma DropToHeadInv(s: State, s': State, ps: set<Pgno>)
    requires CanWrite(s) && DoDropToHead(s, s', ps)
    ensures Inv(s')
  {
    hide Balanced, WellFormed, Intact, MetasOk, SlotsOk, OldestOk, LiveOk, NewestOk;
    DropTxn(s, ps, s'.writer.value);
    PrivateStep(s, s', s'.writer.value);
  }

  lemma LooseInv(s: State, s': State)
    requires CanWrite(s) && (DoLooseToFreed(s, s') || DoLooseToHead(s, s'))
    ensures Inv(s')
  {
    hide Balanced, WellFormed, Intact, MetasOk, SlotsOk, OldestOk, LiveOk, NewestOk;
    assert View(s'.writer.value, s.disk) == View(s.writer.value, s.disk);
    PrivateStep(s, s', s'.writer.value);
  }

  lemma SaveFreelistInv(s: State, s': State)
    requires CanWrite(s) && DoSaveFreelist(s, s')
    ensures Inv(s')
  {
    hide Balanced, WellFormed, Intact, MetasOk, SlotsOk, OldestOk, LiveOk, NewestOk;
    assert View(s'.writer.value, s.disk) == View(s.writer.value, s.disk);
    PrivateStep(s, s', s'.writer.value);
  }

  lemma UnspillInv(s: State, s': State, p: Pgno)
    requires CanWrite(s) && DoUnspill(s, s', p)
    ensures Inv(s')
  {
    hide Balanced, WellFormed, Intact, MetasOk, SlotsOk, OldestOk, LiveOk, NewestOk;
    assert View(s'.writer.value, s.disk) == View(s.writer.value, s.disk);
    PrivateStep(s, s', s'.writer.value);
  }

  // ---- Steps on shared state -----------------------------------------------------------------

  lemma ReaderBeginInv(s: State, s': State, i: nat, pid: nat)
    requires Inv(s) && DoReaderBegin(s, s', i, pid)
    ensures Inv(s')
  {
    hide Balanced, Intact, WellFormed, TxnOk;
    forall v: TxnId | Live(s', v) ensures Live(s, v) {
      if k :| 0 <= k < |s'.slots| && ActiveReader(s'.slots[k]) && s'.slots[k].txnid == v {
        if k != i { assert s'.slots[k] == s.slots[k]; }
      }
    }
  }

  lemma ReaderEndInv(s: State, s': State, i: nat)
    requires Inv(s) && DoReaderEnd(s, s', i)
    ensures Inv(s')
  {
    hide Balanced, Intact, WellFormed, TxnOk;
    forall v: TxnId | Live(s', v) ensures Live(s, v) {
      if k :| 0 <= k < |s'.slots| && ActiveReader(s'.slots[k]) && s'.slots[k].txnid == v {
        assert s'.slots[k] == s.slots[k];
      }
    }
  }

  lemma FindOldestInv(s: State, s': State, bound: TxnId)
    requires Inv(s) && DoFindOldest(s, s', bound)
    ensures Inv(s')
  {
    hide Balanced, Intact, WellFormed, TxnOk;
    assert forall v :: Live(s', v) <==> Live(s, v);
    forall v: TxnId | Live(s, v) ensures bound <= v { }
  }

  lemma WriterBeginInv(s: State, s': State, proc: nat)
    requires Inv(s) && DoWriterBegin(s, s', proc)
    ensures Inv(s')
  {
    hide Intact;
    assert forall v :: Live(s', v) <==> Live(s, v);
    var w, base := s'.writer.value, s.versions[s.lastTxn];
    assert Live(s, s.lastTxn);
    assert View(w, s.disk) == base.pages by { BaseView(s, w); }
    BeginTxn(w, base, s.disk, s.lastTxn);
  }

  lemma BeginTxn(w: Txn, base: Version, disk: map<Pgno, Page>, c: TxnId)
    requires View(w, disk) == base.pages && Balanced(base, c) && WellFormed(base)
    requires w == Txn(w.proc, c + 1, base.roots, base.pages.Keys, {}, map[], base.next, {}, 0, {}, {}, Active)
    requires forall p :: p in base.pages ==> p in disk
    ensures TxnOk(w, base, disk)
  {
    var recs := Records(base.pages);
    assert KeptRecords(w, recs) == recs == (set r | r in recs && r.0 > 0);
    forall p ensures p in FreePages(base, 0) <==> exists r :: r in recs && r.1 == p { }
  }

  lemma BaseView(s: State, w: Txn)
    requires s.lastTxn in s.versions && Intact(s.disk, s.versions[s.lastTxn])
    requires w.tree == s.versions[s.lastTxn].pages.Keys && w.mem == map[]
    ensures View(w, s.disk) == s.versions[s.lastTxn].pages
  {
  }

  lemma FlushInv(s: State, s': State, p: Pgno)
    requires Inv(s) && DoFlush(s, s', p)
    ensures Inv(s')
  {
    hide Balanced, Conserved, WellFormed;
    var w, w' := s.writer.value, s'.writer.value;
    assert forall v :: Live(s', v) <==> Live(s, v);
    assert View(w', s'.disk) == View(w, s.disk);
    FlushTxn(w, w', s.versions[s.lastTxn], s.disk, s'.disk, p);
    hide TxnOk;
  }

  lemma FlushTxn(w: Txn, w': Txn, base: Version, disk: map<Pgno, Page>, disk': map<Pgno, Page>, p: Pgno)
    requires TxnOk(w, base, disk) && p in w.mem
    requires w' == w.(mem := w.mem - {p}) && disk' == disk[p := w.mem[p]]
    requires View(w', disk') == View(w, disk)
    ensures TxnOk(w', base, disk')
  {
    hide Balanced, WellFormed;
  }

  lemma SyncInv(s: State, s': State)
    requires Inv(s) && DoSync(s, s')
    ensures Inv(s')
  {
    hide Balanced, Intact, WellFormed, TxnOk;
    assert forall v :: Live(s', v) <==> Live(s, v);
  }

  lemma PublishInv(s: State, s': State)
    requires Inv(s) && DoPublish(s, s')
    ensures Inv(s')
  {
    hide Balanced, Intact, WellFormed, TxnOk;
    assert forall v :: Live(s', v) ==> Live(s, v);
  }

  lemma AbortInv(s: State, s': State)
    requires Inv(s) && DoAbort(s, s')
    ensures Inv(s')
  {
    hide Balanced, Intact, WellFormed, TxnOk;
    assert forall v :: Live(s', v) <==> Live(s, v);
  }

  lemma CrashInv(s: State, s': State, disk: map<Pgno, Page>)
    requires Inv(s) && DoCrash(s, s', disk)
    ensures Inv(s')
  {
    hide Balanced, TxnOk;
    assert forall v :: Live(s', v) ==> Live(s, v);
  }

  /** The version a complete transaction leaves behind is balanced. */
  lemma NewVersion(w: Txn, base: Version, disk: map<Pgno, Page>, v: Version)
    requires TxnOk(w, base, disk) && w.phase == Saved && w.id > 0 && Balanced(base, w.id - 1)
    requires v == Version(w.roots, View(w, disk), w.next)
    ensures WellFormed(v) && Balanced(v, w.id)
  {
    var recs, b := Records(v.pages), Records(base.pages);
    var kept := KeptRecords(w, recs);
    assert v.pages.Keys == w.tree;
    forall r | r in recs ensures 0 < r.0 <= w.id && r.1 !in w.tree {
      RecordPlace(w, base, recs, r);
    }
    forall r, q | r in recs && q in recs && r.1 == q.1 ensures r == q {
      RecordPlace(w, base, recs, r);
      RecordPlace(w, base, recs, q);
    }
    forall p: Pgno ensures (exists r :: r in recs && r.1 == p) <==> p in w.head || p in w.freed || p in FreePages(base, w.pglast) {
      if r :| r in recs && r.1 == p { RecordPlace(w, base, recs, r); }
      if p in w.freed { assert (w.id, p) in recs; }
      if p in FreePages(base, w.pglast) {
        var r :| r in b && r.0 > w.pglast && r.1 == p;
        assert r in kept;
      }
    }
  }

  /** Which of the three groups a record of the finished free list belongs to. */
  lemma RecordPlace(w: Txn, base: Version, recs: set<(TxnId, Pgno)>, r: (TxnId, Pgno))
    requires w.pglast < w.id && Balanced(base, w.id - 1) && FreelistSaved(w, recs) && r in recs
    requires KeptRecords(w, recs) == (set q | q in Records(base.pages) && q.0 > w.pglast)
    ensures 0 < r.0 <= w.id
    ensures if r.0 == w.id then r.1 in w.freed else if r.0 <= w.pglast then r.1 in w.head
            else r in Records(base.pages) && r.1 in FreePages(base, w.pglast)
  {
    if r.0 != w.id && r.0 > w.pglast {
      assert r in KeptRecords(w, recs);
    }
  }

  /** The records of the new version name no page of any version still live. */
  lemma NewRecordUnreachable(s: State, r: (TxnId, Pgno), v: TxnId)
    requires Inv(s) && s.writer.Some? && s.writer.value.phase == Saved && Live(s, v) && r.0 <= v
    requires r in Records(View(s.writer.value, s.disk))
    ensures v in s.versions && v <= s.lastTxn && r.1 !in s.versions[v].pages
  {
    hide Intact, WellFormed, MetasOk, OldestOk, Conserved;
    var w := s.writer.value;
    var recs := Records(View(w, s.disk));
    RecordPlace(w, s.versions[s.lastTxn], recs, r);
  }

  lemma NewRecordOutside(w: Txn, base: Version, disk: map<Pgno, Page>, r: (TxnId, Pgno))
    requires TxnOk(w, base, disk) && w.phase == Saved && Balanced(base, w.id - 1)
    requires r in Records(View(w, disk))
    ensures r.1 !in View(w, disk)
  {
    RecordPlace(w, base, Records(View(w, disk)), r);
  }

  lemma WriteMetaInv(s: State, s': State)
    requires Inv(s) && DoWriteMeta(s, s')
    ensures Inv(s')
  {
    hide Conserved, WellFormed, Balanced, FreelistSaved;
    var w := s.writer.value;
    var base, v := s.versions[s.lastTxn], s'.versions[w.id];
    forall u: TxnId ensures Live(s', u) <==> Live(s, u) || u == w.id { }
    NewVersion(w, base, s.disk, v);
    NewVersionOnDisk(s, s');
    forall r, u: TxnId | r in Records(v.pages) && Live(s', u) && u in s'.versions && r.0 <= u ensures r.1 !in s'.versions[u].pages {
      if u == w.id { NewRecordOutside(w, base, s.disk, r); } else { NewRecordUnreachable(s, r, u); }
    }
    assert RecordsUnreachable(s', w.id);
    assert RecordsUnreachable(s', s.lastTxn);
    assert base.next <= v.next;
    hide TxnOk, Intact;
    assert MetasOk(s');
    assert SlotsOk(s');
    assert OldestOk(s') by {
      assert Live(s, s.lastTxn);
      forall k, u: TxnId | k in s'.oldest && Live(s', u) ensures s'.oldest[k] <= u {
        assert k in s.oldest && s.oldest[k] <= s.lastTxn;
        assert u != w.id ==> Live(s, u);
      }
    }
    assert LiveOk(s');
    assert NewestOk(s');
    assert WriterOk(s');
  }

  lemma NewVersionOnDisk(s: State, s': State)
    requires Inv(s) && DoWriteMeta(s, s')
    ensures Intact(s.disk, s'.versions[s.writer.value.id])
  {
    hide Conserved, WellFormed, Balanced, FreelistSaved, NewestOk;
  }

  // ---- Every run -----------------------------------------------------------------------------

  lemma StepInv(s: State, s': State, step: Step)
    requires Inv(s) && NextStep(s, s', step)
    ensures Inv(s')
  {
    hide Inv;
    assert Writing(s) ==> CanWrite(s);
    match step
    case ReaderBegin(i, pid) => ReaderBeginInv(s, s', i, pid);
    case ReaderEnd(i) => ReaderEndInv(s, s', i);
    case WriterBegin(proc) => WriterBeginInv(s, s', proc);
    case FindOldest(bound) => FindOldestInv(s, s', bound);
    case FetchRecord(t) => FetchRecordInv(s, s', t);
    case AllocFromHead(ps, page) => AllocFromHeadInv(s, s', ps, page);
    case AllocNew(ps, n, page) => AllocNewInv(s, s', ps, n, page);
    case AllocLoose(p, page) => AllocLooseInv(s, s', p, page);
    case Rewrite(p, page) => RewriteInv(s, s', p, page);
    case SetRoots(roots) => SetRootsInv(s, s', roots);
    case DropToFreed(p) => DropToFreedInv(s, s', p);
    case DropToLoose(p) => DropToLooseInv(s, s', p);
    case DropToHead(ps) => DropToHeadInv(s, s', ps);
    case LooseToFreed => LooseInv(s, s');
    case LooseToHead => LooseInv(s, s');
    case SaveFreelist => SaveFreelistInv(s, s');
    case Flush(p) => FlushInv(s, s', p);
    case Unspill(p) => UnspillInv(s, s', p);
    case Sync => SyncInv(s, s');
    case WriteMeta => WriteMetaInv(s, s');
    case Publish => PublishInv(s, s');
    case Abort => AbortInv(s, s');
    case Crash(disk) => CrashInv(s, s', disk);
  }

  lemma {:induction false} RunInv(states: seq<State>, i: nat)
    requires Run(states) && i < |states|
    ensures Inv(states[i])
  {
    if i == 0 {
      InitInv(states[0]);
    } else {
      RunInv(states, i - 1);
      assert Next(states[i - 1], states[i - 1 + 1]);
      var step :| NextStep(states[i - 1], states[i], step);
      StepInv(states[i - 1], states[i], step);
    }
  }

  /** A path from a root page along the page links stored in the file right now. */
  ghost predicate Path(disk: map<Pgno, Page>, roots: set<Pgno>, path: seq<Pgno>) {
    && |path| > 0 && path[0] in roots
    && forall j :: 0 <= j < |path| - 1 ==> path[j] in disk && path[j + 1] in disk[path[j]].kids
  }

  lemma {:induction false} PathStaysInside(disk: map<Pgno, Page>, v: Version, path: seq<Pgno>)
    requires WellFormed(v) && Intact(disk, v) && Path(disk, v.roots, path)
    ensures path[|path| - 1] in v.pages
  {
    if |path| > 1 {
      var front := path[..|path| - 1];
      PathStaysInside(disk, v, front);
      assert front[|path| - 2] == path[|path| - 2];
      assert path[|path| - 2 + 1] in disk[path[|path| - 2]].kids;
    }
  }

  /**
   Reader safety: whatever a reader reaches from the roots of its meta copy, by following the
   links now in the file, is a page of its version, exactly as that version committed it.
   */
  lemma ReaderSeesItsVersion(states: seq<State>, i: nat, k: nat, path: seq<Pgno>)
    requires Run(states) && i < |states| && k < |states[i].slots| && ActiveReader(states[i].slots[k])
    requires Path(states[i].disk, states[i].slots[k].view.roots, path)
    ensures var s := states[i]; var t := s.slots[k].txnid; var p := path[|path| - 1];
            t in s.versions && p in s.versions[t].pages && p in s.disk && s.disk[p] == s.versions[t].pages[p]
  {
    RunInv(states, i);
    var s := states[i];
    assert Live(s, s.slots[k].txnid);
    PathStaysInside(s.disk, s.versions[s.slots[k].txnid], path);
  }

  /** A committed version is never revised. */
  lemma VersionsKept(s: State, s': State, step: Step)
    requires Inv(s) && NextStep(s, s', step)
    ensures forall v :: v in s.versions ==> v in s'.versions && s'.versions[v] == s.versions[v]
  {
    hide TxnOk, LiveOk, NewestOk, OldestOk, SlotsOk;
  }

  lemma SlotKept(s: State, s': State, step: Step, k: nat)
    requires Inv(s) && NextStep(s, s', step)
    requires k < |s.slots| && ActiveReader(s.slots[k]) && k < |s'.slots| && ActiveReader(s'.slots[k])
    ensures s'.slots[k] == s.slots[k]
  {
    hide Inv;
  }

  lemma LiveVersion(s: State, v: TxnId)
    requires Inv(s) && Live(s, v)
    ensures v in s.versions && WellFormed(s.versions[v]) && Intact(s.disk, s.versions[v])
    ensures s.versions[v].pages.Keys !! s.unsynced
  {
    hide Balanced, TxnOk, MetasOk, SlotsOk, NewestOk, OldestOk, WriterOk, WellFormed, Intact;
  }

  /** While a reader is active its snapshot does not change, whatever the others do. */
  lemma {:induction false} SnapshotIsStable(states: seq<State>, i: nat, j: nat, k: nat)
    requires Run(states) && i <= j < |states|
    requires forall m :: i <= m <= j ==> k < |states[m].slots| && ActiveReader(states[m].slots[k])
    ensures states[j].slots[k] == states[i].slots[k]
    ensures var t := states[i].slots[k].txnid;
            t in states[i].versions && t in states[j].versions && states[j].versions[t] == states[i].versions[t]
    ensures forall p :: p in states[i].versions[states[i].slots[k].txnid].pages ==>
              p in states[i].disk && p in states[j].disk && states[j].disk[p] == states[i].disk[p]
    decreases j - i
  {
    hide Inv, NextStep;
    RunInv(states, i);
    RunInv(states, j);
    if i < j {
      SnapshotIsStable(states, i, j - 1, k);
      RunInv(states, j - 1);
      assert Next(states[j - 1], states[j - 1 + 1]);
      var step :| NextStep(states[j - 1], states[j], step);
      VersionsKept(states[j - 1], states[j], step);
      SlotKept(states[j - 1], states[j], step, k);
    }
    LiveVersion(states[i], states[i].slots[k].txnid);
    LiveVersion(states[j], states[j].slots[k].txnid);
  }

  /** The pages the write transaction may overwrite. */
  ghost function Mine(s: State): set<Pgno> {
    if s.writer.Some? then s.writer.value.mine + s.writer.value.head else {}
  }

  lemma PoolIsApart(s: State, v: TxnId, p: Pgno)
    requires Inv(s) && s.writer.Some? && s.writer.value.phase != MetaWritten && Live(s, v)
    ensures v in s.versions && (p in s.versions[v].pages ==> p !in Mine(s) && p !in s.writer.value.mem)
  {
    LiveVersion(s, v);
    hide Balanced, MetasOk, SlotsOk, NewestOk, OldestOk, LiveOk, Conserved;
  }

  /** The only steps that change the file are flushing a page of the writer's and a crash. */
  lemma DiskSteps(s: State, s': State, step: Step)
    requires NextStep(s, s', step)
    ensures step.Flush? || step.Crash? || s'.disk == s.disk
  {
  }

  /** No page of a live version is handed out to the writer or overwritten in the file. */
  lemma LivePagesUntouched(states: seq<State>, i: nat, v: TxnId, p: Pgno)
    requires Run(states) && i + 1 < |states| && Live(states[i], v)
    ensures v in states[i].versions
    ensures p in states[i].versions[v].pages ==>
              && (Writing(states[i]) ==> p !in Mine(states[i]))
              && p in states[i].disk && p in states[i + 1].disk && states[i + 1].disk[p] == states[i].disk[p]
  {
    var s, s' := states[i], states[i + 1];
    RunInv(states, i);
    assert Next(states[i], states[i + 1]);
    LiveVersion(s, v);
    if s.writer.Some? && s.writer.value.phase != MetaWritten { PoolIsApart(s, v, p); }
    var step :| NextStep(s, s', step);
    DiskSteps(s, s', step);
    hide Inv, Mine;
  }

  /** The claim of mdb_audit, at every moment: each page below `next` is in exactly one place. */
  lemma PagesAreConserved(states: seq<State>, i: nat)
    requires Run(states) && i < |states|
    ensures var s := states[i]; s.lastTxn in s.versions && Balanced(s.versions[s.lastTxn], s.lastTxn)
    ensures var s := states[i]; s.writer.Some? && s.writer.value.phase != MetaWritten ==>
              Conserved(s.writer.value, s.versions[s.lastTxn])
  {
    RunInv(states, i);
  }

  /** What the newer meta page names is a committed version, complete and unspoiled. */
  ghost predicate Recoverable(metas: seq<Meta>, disk: map<Pgno, Page>, versions: map<TxnId, Version>) {
    && |metas| == 2
    && var m := metas[PickMeta(metas)];
       m.txnid in versions && m == Meta(m.txnid, versions[m.txnid].roots, versions[m.txnid].next)
       && WellFormed(versions[m.txnid]) && Intact(disk, versions[m.txnid])
  }

  lemma NewerMeta(s: State)
    requires Inv(s)
    ensures |s.metas| == 2
    ensures var m := s.metas[PickMeta(s.metas)];
            && m.txnid == (if Finishing(s) then s.lastTxn + 1 else s.lastTxn)
            && m.txnid in s.versions && m == MetaOf(s, m.txnid) && Live(s, m.txnid)
  {
    hide Balanced, NewestOk, OldestOk, SlotsOk, TxnOk, LiveOk, PoolOk;
  }

  /**
   Atomic commit: a crash at any moment leaves a file from which the reopen picks either the
   last published version or the one whose meta page was just written, each page intact.
   */
  lemma CrashIsAtomic(states: seq<State>, i: nat, s': State, disk: map<Pgno, Page>)
    requires Run(states) && i < |states| && DoCrash(states[i], s', disk)
    ensures Recoverable(s'.metas, s'.disk, states[i].versions)
    ensures s'.lastTxn == if Finishing(states[i]) then states[i].lastTxn + 1 else states[i].lastTxn
  {
    RunInv(states, i);
    var s := states[i];
    NewerMeta(s);
    hide Inv;
    LiveVersion(s, s'.lastTxn);
  }
}
