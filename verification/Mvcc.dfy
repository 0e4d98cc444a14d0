/**
 Multi-version concurrency: one writer, any number of readers, two meta slots, and a crash at
 any point. The state machine covers reader begin and end, the write transaction's page
 traffic (mdb_page_alloc, mdb_page_touch, mdb_page_loose, mdb_ovpage_free, spilling), the
 commit sequence (save the freelist, flush, sync, write the meta page, publish the txn id),
 abort, and a crash followed by a reopen.

 `versions` is a history variable: what each committed transaction's trees held.
 */
module Mvcc {
  type Pgno = nat
  type TxnId = nat

  /** The txn id of a reader slot that is not inside a transaction: (txnid_t)-1. */
  const NO_TXN: TxnId := 0xFFFF_FFFF_FFFF_FFFF

  /**
   A page of one of the two trees: the pages it points to (children and overflow pages) and
   the free-list records it stores, as pairs of the freeing transaction and the freed page.
   */
  datatype Page = Page(kids: set<Pgno>, recs: set<(TxnId, Pgno)>, body: int)

  datatype Meta = Meta(txnid: TxnId, roots: set<Pgno>, next: Pgno)

  datatype Version = Version(roots: set<Pgno>, pages: map<Pgno, Page>, next: Pgno)

  /** A reader slot, with the copy of the meta page its transaction works from. */
  datatype Slot = Slot(pid: nat, txnid: TxnId, view: Meta)

  datatype Phase = Active | Saved | MetaWritten

  /**
   The write transaction. `tree` are the pages in use by its trees, `mine` the ones it
   allocated, `mem` its dirty pages in memory; `head` and `pglast` are me_pghead and
   me_pglast, `freed` is mt_free_pgs and `loose` the loose pages.
   */
  datatype Txn = Txn(proc: nat, id: TxnId, roots: set<Pgno>, tree: set<Pgno>, mine: set<Pgno>,
                     mem: map<Pgno, Page>, next: Pgno, head: set<Pgno>, pglast: TxnId,
                     freed: set<Pgno>, loose: set<Pgno>, phase: Phase)

  datatype Option<T> = None | Some(value: T)

  /**
   `disk` is the data file as the map shows it; `unsynced` are the pages written since the
   last sync. `oldest` is me_pgoldest, cached by each process.
   */
  datatype State = State(disk: map<Pgno, Page>, unsynced: set<Pgno>, metas: seq<Meta>, lastTxn: TxnId,
                         slots: seq<Slot>, oldest: map<nat, TxnId>, writer: Option<Txn>,
                         versions: map<TxnId, Version>)

  // ---- Observations ------------------------------------------------------------------------

  ghost predicate ActiveReader(slot: Slot) {
    slot.pid != 0 && slot.txnid != NO_TXN
  }

  /** mdb_env_pick_meta */
  function PickMeta(metas: seq<Meta>): nat
    requires |metas| == 2
  {
    if metas[0].txnid < metas[1].txnid then 1 else 0
  }

  /** A transaction whose pages somebody may still need. */
  ghost predicate Live(s: State, v: TxnId) {
    || v == s.lastTxn
    || (exists i :: 0 <= i < |s.slots| && ActiveReader(s.slots[i]) && s.slots[i].txnid == v)
    || (s.writer.Some? && s.writer.value.phase == MetaWritten && v == s.writer.value.id)
  }

  ghost function Records(pages: map<Pgno, Page>): set<(TxnId, Pgno)> {
    set p, r | p in pages && r in pages[p].recs :: r
  }

  /** The page contents a write transaction sees: its dirty copies over the file. */
  ghost function View(w: Txn, disk: map<Pgno, Page>): map<Pgno, Page> {
    map p | p in w.tree && (p in w.mem || p in disk) :: if p in w.mem then w.mem[p] else disk[p]
  }

  /** `ps` are the pages lo .. hi - 1. */
  ghost predicate IsRange(ps: set<Pgno>, lo: Pgno, hi: Pgno) {
    forall p :: p in ps <==> lo <= p < hi
  }

  // ---- Steps -------------------------------------------------------------------------------

  datatype Step =
    | ReaderBegin(i: nat, pid: nat)
    | ReaderEnd(i: nat)
    | WriterBegin(proc: nat)
    | FindOldest(bound: TxnId)
    | FetchRecord(t: TxnId)
    | AllocFromHead(ps: set<Pgno>, page: Page)
    | AllocNew(ps: set<Pgno>, n: nat, page: Page)
    | AllocLoose(p: Pgno, page: Page)
    | Rewrite(p: Pgno, page: Page)
    | SetRoots(roots: set<Pgno>)
    | DropToFreed(p: Pgno)
    | DropToLoose(p: Pgno)
    | DropToHead(ps: set<Pgno>)
    | LooseToFreed
    | LooseToHead
    | SaveFreelist
    | Flush(p: Pgno)
    | Unspill(p: Pgno)
    | Sync
    | WriteMeta
    | Publish
    | Abort
    | Crash(disk: map<Pgno, Page>)

  ghost predicate Init(s: State) {
    && s.disk == map[] && s.unsynced == {} && s.lastTxn == 0 && s.slots == [] && s.writer == None
    && s.metas == [Meta(0, {}, 2), Meta(0, {}, 2)] && s.oldest == map[]
    && s.versions == map[0 := Version({}, map[], 2)]
  }

  /** mdb_txn_renew0 for a reader: publish the last txn id, copy the meta page it names. */
  ghost predicate DoReaderBegin(s: State, s': State, i: nat, pid: nat) {
    && pid != 0 && i <= |s.slots| && |s.metas| == 2 && s.lastTxn < NO_TXN
    && (i < |s.slots| ==> !ActiveReader(s.slots[i]))
    && var slot := Slot(pid, s.lastTxn, s.metas[s.lastTxn % 2]);
       s' == s.(slots := if i < |s.slots| then s.slots[i := slot] else s.slots + [slot])
  }

  ghost predicate DoReaderEnd(s: State, s': State, i: nat) {
    i < |s.slots| && s' == s.(slots := s.slots[i := s.slots[i].(txnid := NO_TXN)])
  }

  /** mdb_txn_renew0 for the writer, which holds the writer lock from here on. */
  ghost predicate DoWriterBegin(s: State, s': State, proc: nat) {
    && s.writer == None && |s.metas| == 2 && s.lastTxn in s.versions
    && var m := s.metas[s.lastTxn % 2];
       s' == s.(writer := Some(Txn(proc, s.lastTxn + 1, m.roots, s.versions[s.lastTxn].pages.Keys, {}, map[],
                                   m.next, {}, 0, {}, {}, Active)))
  }

  /** mdb_find_oldest: the oldest txn id still referenced, cached in me_pgoldest. */
  ghost predicate IsOldest(slots: seq<Slot>, id: TxnId, bound: TxnId) {
    && bound < id
    && (forall i :: 0 <= i < |slots| && ActiveReader(slots[i]) ==> bound <= slots[i].txnid)
    && (bound == id - 1 || exists i :: 0 <= i < |slots| && ActiveReader(slots[i]) && bound == slots[i].txnid)
  }

  ghost predicate DoFindOldest(s: State, s': State, bound: TxnId) {
    s.writer.Some? && IsOldest(s.slots, s.writer.value.id, bound) && s' == s.(oldest := s.oldest[s.writer.value.proc := bound])
  }

  /** The writer while it may still change its trees. */
  ghost predicate Writing(s: State) {
    s.writer.Some? && s.writer.value.phase == Active
  }

  /** mdb_page_alloc consumes the next freeDB record if it is older than every reader. */
  ghost predicate DoFetchRecord(s: State, s': State, t: TxnId) {
    && Writing(s)
    && var w := s.writer.value;
       var recs := Records(View(w, s.disk));
       && w.pglast < t && w.proc in s.oldest && t < s.oldest[w.proc]
       && (forall r :: r in recs ==> !(w.pglast < r.0 < t))
       && s' == s.(writer := Some(w.(head := w.head + (set r | r in recs && r.0 == t :: r.1), pglast := t)))
  }

  /** Pages enter the trees; the first one holds `page`, an overflow run's others hold no links. */
  ghost function Enter(w: Txn, ps: set<Pgno>, page: Page): Txn {
    w.(tree := w.tree + ps, mine := w.mine + ps, mem := w.mem + map p | p in ps :: page)
  }

  /** A page may only point to pages in use, and only the records the writer owns may differ. */
  ghost predicate MayHold(w: Txn, tree: set<Pgno>, page: Page) {
    && page.kids <= tree
    && (forall r :: r in page.recs ==> r.0 <= w.pglast || r.0 == w.id)
  }

  ghost predicate DoAllocFromHead(s: State, s': State, ps: set<Pgno>, page: Page) {
    && Writing(s)
    && var w := s.writer.value;
       && ps <= w.head && MayHold(w, w.tree + ps, page)
       && s' == s.(writer := Some(Enter(w, ps, page).(head := w.head - ps)))
  }

  ghost predicate DoAllocNew(s: State, s': State, ps: set<Pgno>, n: nat, page: Page) {
    && Writing(s)
    && var w := s.writer.value;
       && IsRange(ps, w.next, w.next + n) && MayHold(w, w.tree + ps, page)
       && s' == s.(writer := Some(Enter(w, ps, page).(next := w.next + n)))
  }

  ghost predicate DoAllocLoose(s: State, s': State, p: Pgno, page: Page) {
    && Writing(s)
    && var w := s.writer.value;
       && p in w.loose && MayHold(w, w.tree + {p}, page)
       && s' == s.(writer := Some(Enter(w, {p}, page).(loose := w.loose - {p})))
  }

  /** The records a page may not lose or gain: those between pglast and this transaction. */
  ghost function KeptRecords(w: Txn, recs: set<(TxnId, Pgno)>): set<(TxnId, Pgno)> {
    set r | r in recs && w.pglast < r.0 && r.0 != w.id
  }

  /**
   Change a dirty page in place. Records the writer has not consumed may move between pages
   (a page is copied, split or merged) but not change.
   */
  ghost predicate DoRewrite(s: State, s': State, p: Pgno, page: Page) {
    && Writing(s)
    && var w := s.writer.value;
       && p in w.tree && p in w.mine && p in w.mem && page.kids <= w.tree
       && var w' := w.(mem := w.mem[p := page]);
       && KeptRecords(w, Records(View(w', s.disk))) == KeptRecords(w, Records(View(w, s.disk)))
       && s' == s.(writer := Some(w'))
  }

  ghost predicate DoSetRoots(s: State, s': State, roots: set<Pgno>) {
    Writing(s) && roots <= s.writer.value.tree && s' == s.(writer := Some(s.writer.value.(roots := roots)))
  }

  /** Nothing in use points to the pages any more, and they carry no unconsumed record alone. */
  ghost predicate Unlinked(s: State, w: Txn, ps: set<Pgno>) {
    var rest := w.(tree := w.tree - ps);
    && ps <= w.tree && w.roots !! ps
    && (forall q :: q in View(rest, s.disk) ==> View(rest, s.disk)[q].kids !! ps)
    && KeptRecords(w, Records(View(rest, s.disk))) == KeptRecords(w, Records(View(w, s.disk)))
  }

  ghost predicate DoDropToFreed(s: State, s': State, p: Pgno) {
    && Writing(s) && Unlinked(s, s.writer.value, {p})
    && var w := s.writer.value;
       s' == s.(writer := Some(w.(tree := w.tree - {p}, freed := w.freed + {p})))
  }

  /** mdb_page_loose: only a page this transaction dirtied. */
  ghost predicate DoDropToLoose(s: State, s': State, p: Pgno) {
    && Writing(s) && Unlinked(s, s.writer.value, {p}) && p in s.writer.value.mine
    && var w := s.writer.value;
       s' == s.(writer := Some(w.(tree := w.tree - {p}, loose := w.loose + {p})))
  }

  /** mdb_ovpage_free of a run this transaction allocated, when me_pghead exists. */
  ghost predicate DoDropToHead(s: State, s': State, ps: set<Pgno>) {
    && Writing(s) && Unlinked(s, s.writer.value, ps) && ps <= s.writer.value.mine && s.writer.value.pglast > 0
    && var w := s.writer.value;
       s' == s.(writer := Some(w.(tree := w.tree - ps, mine := w.mine - ps, mem := w.mem - ps, head := w.head + ps)))
  }

  ghost predicate DoLooseToFreed(s: State, s': State) {
    && Writing(s)
    && var w := s.writer.value; s' == s.(writer := Some(w.(freed := w.freed + w.loose, loose := {})))
  }

  ghost predicate DoLooseToHead(s: State, s': State) {
    && Writing(s) && s.writer.value.pglast > 0
    && var w := s.writer.value; s' == s.(writer := Some(w.(head := w.head + w.loose, loose := {})))
  }

  /**
   mdb_freelist_save is complete: the record of this transaction lists exactly `freed`, and
   the records up to pglast list each page of `head` exactly once.
   */
  ghost predicate FreelistSaved(w: Txn, recs: set<(TxnId, Pgno)>) {
    && w.loose == {}
    && (forall r :: r in recs && r.0 == w.id ==> r.1 in w.freed)
    && (forall p :: p in w.freed ==> (w.id, p) in recs)
    && (forall r :: r in recs && r.0 <= w.pglast ==> 0 < r.0 && r.1 in w.head)
    && (forall p :: p in w.head ==> exists r :: r in recs && r.0 <= w.pglast && r.1 == p)
    && (forall r, q :: r in recs && q in recs && r.0 <= w.pglast && q.0 <= w.pglast && r.1 == q.1 ==> r == q)
  }

  ghost predicate DoSaveFreelist(s: State, s': State) {
    && Writing(s)
    && var w := s.writer.value;
       && FreelistSaved(w, Records(View(w, s.disk)))
       && s' == s.(writer := Some(w.(phase := Saved)))
  }

  /** mdb_page_flush of one page, at commit or when spilling; loose pages are skipped. */
  ghost predicate DoFlush(s: State, s': State, p: Pgno) {
    && s.writer.Some? && s.writer.value.phase != MetaWritten
    && var w := s.writer.value;
       && p in w.mem && p !in w.loose && p !in w.head
       && s' == s.(disk := s.disk[p := w.mem[p]], unsynced := s.unsynced + {p},
                   writer := Some(w.(mem := w.mem - {p})))
  }

  /** mdb_page_unspill: bring a spilled page of this transaction back into memory. */
  ghost predicate DoUnspill(s: State, s': State, p: Pgno) {
    && Writing(s)
    && var w := s.writer.value;
       && p in w.mine && p in w.tree && p !in w.mem && p in s.disk
       && s' == s.(writer := Some(w.(mem := w.mem[p := s.disk[p]])))
  }

  ghost predicate DoSync(s: State, s': State) {
    s' == s.(unsynced := {})
  }

  /** mdb_env_write_meta: everything is flushed and synced, then slot txnid & 1 is replaced. */
  ghost predicate DoWriteMeta(s: State, s': State) {
    && s.writer.Some? && s.writer.value.phase == Saved && s.unsynced == {} && |s.metas| == 2
    && var w := s.writer.value;
       && w.mem.Keys !! w.tree
       && s' == s.(metas := s.metas[w.id % 2 := Meta(w.id, w.roots, w.next)],
                   versions := s.versions[w.id := Version(w.roots, View(w, s.disk), w.next)],
                   writer := Some(w.(phase := MetaWritten)))
  }

  /** The last store of the commit: readers see the new transaction from here on. */
  ghost predicate DoPublish(s: State, s': State) {
    && s.writer.Some? && s.writer.value.phase == MetaWritten
    && s' == s.(lastTxn := s.writer.value.id, writer := None)
  }

  ghost predicate DoAbort(s: State, s': State) {
    && s.writer.Some? && s.writer.value.phase != MetaWritten && s' == s.(writer := None)
  }

  /**
   A crash and the reopen after it: a page written since the last sync may hold anything,
   every transaction is gone, and the txn id is taken from the newer meta page.
   */
  ghost predicate DoCrash(s: State, s': State, disk: map<Pgno, Page>) {
    && |s.metas| == 2
    && (forall p :: p in s.disk && p !in s.unsynced ==> p in disk && disk[p] == s.disk[p])
    && s' == State(disk, {}, s.metas, s.metas[PickMeta(s.metas)].txnid, [], map[], None, s.versions)
  }

  ghost predicate NextStep(s: State, s': State, step: Step) {
    match step
    case ReaderBegin(i, pid) => DoReaderBegin(s, s', i, pid)
    case ReaderEnd(i) => DoReaderEnd(s, s', i)
    case WriterBegin(proc) => DoWriterBegin(s, s', proc)
    case FindOldest(bound) => DoFindOldest(s, s', bound)
    case FetchRecord(t) => DoFetchRecord(s, s', t)
    case AllocFromHead(ps, page) => DoAllocFromHead(s, s', ps, page)
    case AllocNew(ps, n, page) => DoAllocNew(s, s', ps, n, page)
    case AllocLoose(p, page) => DoAllocLoose(s, s', p, page)
    case Rewrite(p, page) => DoRewrite(s, s', p, page)
    case SetRoots(roots) => DoSetRoots(s, s', roots)
    case DropToFreed(p) => DoDropToFreed(s, s', p)
    case DropToLoose(p) => DoDropToLoose(s, s', p)
    case DropToHead(ps) => DoDropToHead(s, s', ps)
    case LooseToFreed => DoLooseToFreed(s, s')
    case LooseToHead => DoLooseToHead(s, s')
    case SaveFreelist => DoSaveFreelist(s, s')
    case Flush(p) => DoFlush(s, s', p)
    case Unspill(p) => DoUnspill(s, s', p)
    case Sync => DoSync(s, s')
    case WriteMeta => DoWriteMeta(s, s')
    case Publish => DoPublish(s, s')
    case Abort => DoAbort(s, s')
    case Crash(disk) => DoCrash(s, s', disk)
  }

  ghost predicate Next(s: State, s': State) {
    exists step :: NextStep(s, s', step)
  }

  ghost predicate Run(states: seq<State>) {
    && |states| > 0 && Init(states[0])
    && forall i :: 0 <= i < |states| - 1 ==> Next(states[i], states[i + 1])
  }
}
