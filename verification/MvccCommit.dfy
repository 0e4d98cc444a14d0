/**
 What a commit publishes: the last committed version with the transaction's own writes applied to
 it, in order, and nothing else. `Applied` says what each write does to a version, apart from the
 steps of the state machine.
 */
module MvccCommit {
  import opened Mvcc
  import opened MvccProof

  /** What a step of the write transaction does to the trees it is building. */
  ghost function Applied(v: Version, step: Step): Version {
    match step
    case AllocFromHead(ps, page) => v.(pages := v.pages + map p | p in ps :: page)
    case AllocNew(ps, n, page) => v.(pages := v.pages + (map p | p in ps :: page), next := v.next + n)
    case AllocLoose(p, page) => v.(pages := v.pages[p := page])
    case Rewrite(p, page) => v.(pages := v.pages[p := page])
    case SetRoots(roots) => v.(roots := roots)
    case DropToFreed(p) => v.(pages := v.pages - {p})
    case DropToLoose(p) => v.(pages := v.pages - {p})
    case DropToHead(ps) => v.(pages := v.pages - ps)
    case _ => v
  }

  ghost function AppliedAll(v: Version, steps: seq<Step>): Version {
    if steps == [] then v else Applied(AppliedAll(v, steps[..|steps| - 1]), steps[|steps| - 1])
  }

  /** The trees as the write transaction sees them. */
  ghost function Draft(s: State): Version
    requires s.writer.Some?
  {
    Version(s.writer.value.roots, View(s.writer.value, s.disk), s.writer.value.next)
  }

  // ---- One step ------------------------------------------------------------------------------

  /** A write transaction starts from the last committed version. */
  lemma BeginsAtLast(s: State, s': State, proc: nat)
    requires Inv(s) && NextStep(s, s', WriterBegin(proc))
    ensures s'.writer.Some? && s'.lastTxn == s.lastTxn && s.lastTxn in s'.versions && s'.versions == s.versions
    ensures s'.writer.value.id == s.lastTxn + 1 && s'.writer.value.phase == Active
    ensures Draft(s') == s'.versions[s.lastTxn]
  {
    hide Balanced, WellFormed, NewestOk;
    assert Live(s, s.lastTxn);
    BaseView(s, s'.writer.value);
  }

  /** The transaction that goes on is the same one, and nothing committed changes meanwhile. */
  ghost predicate GoesOn(s: State, s': State) {
    && s.writer.Some? && s'.writer.Some? && s'.writer.value.id == s.writer.value.id
    && s'.lastTxn == s.lastTxn && s'.versions == s.versions && s'.metas == s.metas
  }

  /** An allocation: pages that were not in the trees enter them. */
  lemma EnterDrafts(s: State, s': State, ps: set<Pgno>, page: Page)
    requires CanWrite(s) && s'.writer.Some? && s'.disk == s.disk && ps !! s.writer.value.tree
    requires var w, w' := s.writer.value, s'.writer.value; w' == Enter(w, ps, page).(head := w'.head, next := w'.next, loose := w'.loose)
    ensures Draft(s').pages == Draft(s).pages + map p | p in ps :: page
  {
    hide Inv;
    EnterView(s.writer.value, ps, page, s.disk);
    assert View(s'.writer.value, s.disk) == View(Enter(s.writer.value, ps, page), s.disk);
  }

  lemma DropDrafts(w: Txn, w': Txn, disk: map<Pgno, Page>, ps: set<Pgno>)
    requires w'.tree == w.tree - ps && (w'.mem == w.mem || w'.mem == w.mem - ps)
    ensures View(w', disk) == View(w, disk) - ps
  {
  }

  lemma ApartFromTree(s: State)
    requires CanWrite(s)
    ensures var w := s.writer.value;
            w.tree !! w.head && w.tree !! w.loose && forall p :: p in w.tree ==> p < w.next && (p in w.mem || p in s.disk)
  {
    hide Balanced, WellFormed, Intact, MetasOk, SlotsOk, OldestOk, LiveOk, NewestOk;
  }

  /** Each step of a writing transaction does to its trees what `Applied` says. */
  lemma AllocDrafts(s: State, s': State, step: Step)
    requires CanWrite(s) && NextStep(s, s', step) && (step.AllocFromHead? || step.AllocNew? || step.AllocLoose?)
    ensures s'.writer.Some? && GoesOn(s, s') && Draft(s') == Applied(Draft(s), step)
  {
    hide Inv, Unlinked, FreelistSaved, KeptRecords, MayHold, View;
    ApartFromTree(s);
    match step
    case AllocFromHead(ps, page) => EnterDrafts(s, s', ps, page);
    case AllocNew(ps, n, page) => EnterDrafts(s, s', ps, page);
    case AllocLoose(p, page) =>
      EnterDrafts(s, s', {p}, page);
      assert Draft(s').pages == Draft(s).pages[p := page];
  }

  lemma WritingDrafts(s: State, s': State, step: Step)
    requires CanWrite(s) && NextStep(s, s', step) && s'.writer.Some? && !step.WriteMeta?
    ensures GoesOn(s, s') && Draft(s') == Applied(Draft(s), step)
  {
    hide Inv, Unlinked, FreelistSaved, KeptRecords, MayHold;
    if step.AllocFromHead? || step.AllocNew? || step.AllocLoose? {
      AllocDrafts(s, s', step);
    } else {
      OtherDrafts(s, s', step);
    }
  }

  lemma OtherDrafts(s: State, s': State, step: Step)
    requires CanWrite(s) && NextStep(s, s', step) && s'.writer.Some? && !step.WriteMeta?
    requires !step.AllocFromHead? && !step.AllocNew? && !step.AllocLoose?
    ensures GoesOn(s, s') && Draft(s') == Applied(Draft(s), step)
  {
    hide Inv, Unlinked, FreelistSaved, KeptRecords, MayHold;
    ApartFromTree(s);
    var w, w' := s.writer.value, s'.writer.value;
    if step.Rewrite? {
      assert View(w', s.disk) == View(w, s.disk)[step.p := step.page];
    } else if step.DropToFreed? || step.DropToLoose? {
      DropDrafts(w, w', s.disk, {step.p});
    } else if step.DropToHead? {
      DropDrafts(w, w', s.disk, step.ps);
    } else {
      assert View(w', s'.disk) == View(w, s.disk);
    }
  }

  /** Once the free list is saved the trees do not change any more. */
  lemma SavedDrafts(s: State, s': State, step: Step)
    requires Inv(s) && s.writer.Some? && s.writer.value.phase == Saved
    requires NextStep(s, s', step) && s'.writer.Some? && !step.WriteMeta?
    ensures GoesOn(s, s') && s'.writer.value.phase == Saved && Draft(s') == Draft(s) == Applied(Draft(s), step)
  {
    hide Inv;
    assert View(s'.writer.value, s'.disk) == View(s.writer.value, s.disk);
  }

  lemma {:induction false} StepDrafts(s: State, s': State, step: Step)
    requires Inv(s) && s.writer.Some? && s.writer.value.phase != MetaWritten
    requires NextStep(s, s', step) && s'.writer.Some? && !step.WriteMeta?
    ensures GoesOn(s, s') && Draft(s') == Applied(Draft(s), step) && s'.writer.value.phase != MetaWritten
  {
    hide Inv, View, Applied, Unlinked, FreelistSaved, MayHold, KeptRecords;
    if s.writer.value.phase == Active {
      WritingDrafts(s, s', step);
      PhaseSteps(s, s', step);
    } else {
      SavedDrafts(s, s', step);
    }
  }

  /** Only the write of the meta page finishes a transaction, and from then on its trees are committed. */
  lemma PhaseSteps(s: State, s': State, step: Step)
    requires NextStep(s, s', step) && s.writer.Some? && s'.writer.Some?
    ensures s'.writer.value.phase == MetaWritten <==> step.WriteMeta? || s.writer.value.phase == MetaWritten
  {
    hide View, Unlinked, FreelistSaved, MayHold, KeptRecords, Records;
  }

  /** What the write of the meta page commits. */
  lemma CommitsDraft(s: State, s': State)
    requires NextStep(s, s', WriteMeta)
    ensures s.writer.Some? && s'.writer.Some? && s.writer.value.phase != MetaWritten
    ensures var id := s.writer.value.id;
            && id in s'.versions && s'.versions[id] == Draft(s)
            && |s'.metas| == 2 && s'.metas[id % 2] == Meta(id, Draft(s).roots, Draft(s).next)
            && s'.writer.value.id == id && s'.lastTxn == s.lastTxn
  {
  }

  // ---- Whole transactions --------------------------------------------------------------------

  ghost predicate RunBy(states: seq<State>, steps: seq<Step>) {
    |states| == |steps| + 1 && Init(states[0]) && forall i :: 0 <= i < |steps| ==> NextStep(states[i], states[i + 1], steps[i])
  }

  lemma {:induction false} RunByInv(states: seq<State>, steps: seq<Step>, i: nat)
    requires RunBy(states, steps) && i <= |steps|
    ensures Inv(states[i])
  {
    hide Inv, NextStep;
    if i == 0 {
      InitInv(states[0]);
    } else {
      RunByInv(states, steps, i - 1);
      assert NextStep(states[i - 1], states[i - 1 + 1], steps[i - 1]);
      StepInv(states[i - 1], states[i], steps[i - 1]);
    }
  }

  /** A write transaction begins with step i and is still there in state k. */
  ghost predicate Since(states: seq<State>, steps: seq<Step>, i: nat, k: nat)
    requires RunBy(states, steps)
  {
    i < k <= |steps| && steps[i].WriterBegin? && forall j :: i < j <= k ==> states[j].writer.Some?
  }

  /** The transaction's trees are the last committed version with its writes so far applied. */
  lemma {:induction false} DraftIs(states: seq<State>, steps: seq<Step>, i: nat, k: nat)
    requires RunBy(states, steps) && Since(states, steps, i, k) && forall j :: i < j < k ==> !steps[j].WriteMeta?
    ensures var last := states[i].lastTxn;
            && last in states[i].versions && states[k].lastTxn == last && states[k].versions == states[i].versions
            && states[k].writer.value.id == last + 1 && states[k].writer.value.phase != MetaWritten
            && Draft(states[k]) == AppliedAll(states[i].versions[last], steps[i + 1..k])
  {
    hide Inv, NextStep, Init, Applied, View;
    RunByInv(states, steps, k - 1);
    assert NextStep(states[k - 1], states[k - 1 + 1], steps[k - 1]);
    if k == i + 1 {
      BeginsAtLast(states[i], states[k], steps[i].proc);
      assert steps[i + 1..k] == [];
    } else {
      DraftIs(states, steps, i, k - 1);
      StepDrafts(states[k - 1], states[k], steps[k - 1]);
      var ours := steps[i + 1..k];
      assert ours[..|ours| - 1] == steps[i + 1..k - 1] && ours[|ours| - 1] == steps[k - 1];
    }
  }

  /**
   A commit publishes the last committed version with the transaction's writes applied to it, in
   order: its pages, its roots and its next page, in the version and in the meta page.
   */
  lemma {:induction false} CommitIs(states: seq<State>, steps: seq<Step>, i: nat, k: nat)
    requires RunBy(states, steps) && Since(states, steps, i, k) && k < |steps| && steps[k] == WriteMeta
    ensures var last, s' := states[i].lastTxn, states[k + 1];
            && last in states[i].versions && last + 1 in s'.versions
            && var v := AppliedAll(states[i].versions[last], steps[i + 1..k]);
               s'.versions[last + 1] == v && |s'.metas| == 2 && s'.metas[(last + 1) % 2] == Meta(last + 1, v.roots, v.next)
  {
    hide Inv, Init, View, Applied;
    assert NextStep(states[k], states[k + 1], steps[k]);
    CommitsDraft(states[k], states[k + 1]);
    OneWriteMeta(states, steps, i, k);
    DraftIs(states, steps, i, k);
  }

  /** A transaction that has not written its meta page did not write it before either. */
  lemma {:induction false} OneWriteMeta(states: seq<State>, steps: seq<Step>, i: nat, k: nat)
    requires RunBy(states, steps) && Since(states, steps, i, k) && states[k].writer.value.phase != MetaWritten
    ensures forall j :: i < j < k ==> !steps[j].WriteMeta?
    decreases k
  {
    hide NextStep, Init;
    if k > i + 1 {
      assert NextStep(states[k - 1], states[k - 1 + 1], steps[k - 1]);
      PhaseSteps(states[k - 1], states[k], steps[k - 1]);
      OneWriteMeta(states, steps, i, k - 1);
    }
  }

  /** The roots are those of the last SetRoots, or the version's if there is none. */
  lemma {:induction false} RootsKept(v: Version, steps: seq<Step>)
    requires forall j :: 0 <= j < |steps| ==> !steps[j].SetRoots?
    ensures AppliedAll(v, steps).roots == v.roots
  {
    if steps != [] {
      RootsKept(v, steps[..|steps| - 1]);
    }
  }

  lemma {:induction false} RootsSet(v: Version, steps: seq<Step>, m: nat)
    requires m < |steps| && steps[m].SetRoots? && forall j :: m < j < |steps| ==> !steps[j].SetRoots?
    ensures AppliedAll(v, steps).roots == steps[m].roots
  {
    AppliedInTwo(v, steps, m + 1);
    RootsKept(AppliedAll(v, steps[..m + 1]), steps[m + 1..]);
  }

  /**
   A commit keeps the roots of the version before it, unless the transaction set new ones: then
   the last ones it set are committed.
   */
  lemma CommittedRoots(states: seq<State>, steps: seq<Step>, i: nat, k: nat)
    requires RunBy(states, steps) && Since(states, steps, i, k) && k < |steps| && steps[k] == WriteMeta
    ensures var last, s' := states[i].lastTxn, states[k + 1];
            && last in states[i].versions && last + 1 in s'.versions
            && ((forall j :: i < j < k ==> !steps[j].SetRoots?) ==> s'.versions[last + 1].roots == states[i].versions[last].roots)
            && (forall m :: i < m < k && steps[m].SetRoots? && (forall j :: m < j < k ==> !steps[j].SetRoots?) ==>
                  s'.versions[last + 1].roots == steps[m].roots)
  {
    hide Inv, Init, View, Applied, NextStep;
    CommitIs(states, steps, i, k);
    var v, ours := states[i].versions[states[i].lastTxn], steps[i + 1..k];
    if forall j :: i < j < k ==> !steps[j].SetRoots? { RootsKept(v, ours); }
    forall m | i < m < k && steps[m].SetRoots? && (forall j :: m < j < k ==> !steps[j].SetRoots?)
      ensures states[k + 1].versions[states[i].lastTxn + 1].roots == steps[m].roots
    {
      RootsSet(v, ours, m - i - 1);
    }
  }

  /** A page nothing was written to is as it was. */
  lemma {:induction false} UntouchedPage(v: Version, steps: seq<Step>, p: Pgno)
    requires forall j :: 0 <= j < |steps| ==> !Touches(steps[j], p)
    ensures p in AppliedAll(v, steps).pages <==> p in v.pages
    ensures p in v.pages ==> AppliedAll(v, steps).pages[p] == v.pages[p]
  {
    if steps != [] {
      var front := steps[..|steps| - 1];
      assert forall j :: 0 <= j < |front| ==> front[j] == steps[j];
      UntouchedPage(v, front, p);
      assert !Touches(steps[|steps| - 1], p);
    }
  }

  ghost predicate Touches(step: Step, p: Pgno) {
    match step
    case AllocFromHead(ps, _) => p in ps
    case AllocNew(ps, _, _) => p in ps
    case AllocLoose(q, _) => p == q
    case Rewrite(q, _) => p == q
    case DropToFreed(q) => p == q
    case DropToLoose(q) => p == q
    case DropToHead(ps) => p in ps
    case _ => false
  }

  ghost predicate Drops(step: Step) {
    step.DropToFreed? || step.DropToLoose? || step.DropToHead?
  }

  /** What was last done to a page stays: it is out of the trees, or holds what was last written. */
  lemma LastTouchStays(v: Version, steps: seq<Step>, m: nat, p: Pgno)
    requires m < |steps| && Touches(steps[m], p) && forall j :: m < j < |steps| ==> !Touches(steps[j], p)
    ensures p in AppliedAll(v, steps).pages <==> !Drops(steps[m])
    ensures !Drops(steps[m]) ==> AppliedAll(v, steps).pages[p] == steps[m].page
  {
    var upto := steps[..m + 1];
    assert upto[..m] == steps[..m];
    var half := AppliedAll(v, upto);
    AppliedInTwo(v, steps, m + 1);
    UntouchedPage(half, steps[m + 1..], p);
  }

  lemma {:induction false} AppliedInTwo(v: Version, steps: seq<Step>, m: nat)
    requires m <= |steps|
    ensures AppliedAll(v, steps) == AppliedAll(AppliedAll(v, steps[..m]), steps[m..])
  {
    if m == |steps| {
      assert steps[..m] == steps;
    } else {
      var front, rest := steps[..|steps| - 1], steps[m..];
      AppliedInTwo(v, front, m);
      assert front[..m] == steps[..m] && front[m..] == rest[..|rest| - 1];
    }
  }

  // ---- Who sees it ---------------------------------------------------------------------------

  /** The last step of a commit makes the version whose meta page was written the last one. */
  lemma {:induction false} CommitIsPublished(states: seq<State>, steps: seq<Step>, i: nat, k: nat, m: nat)
    requires RunBy(states, steps) && Since(states, steps, i, m) && i < k < m < |steps| && steps[k] == WriteMeta && steps[m] == Publish
    ensures var last, s' := states[i].lastTxn, states[m + 1];
            && last in states[i].versions && s'.lastTxn == last + 1 && s'.lastTxn in s'.versions && s'.writer.None?
            && s'.versions[s'.lastTxn] == AppliedAll(states[i].versions[last], steps[i + 1..k])
  {
    hide Inv, Init, View, Applied, NextStep, AppliedAll;
    CommitIs(states, steps, i, k);
    assert NextStep(states[k], states[k + 1], steps[k]);
    CommitsDraft(states[k], states[k + 1]);
    OneWriteMeta(states, steps, i, k);
    DraftIs(states, steps, i, k);
    Committed(states, steps, k + 1, m, states[i].lastTxn + 1);
    assert NextStep(states[m], states[m + 1], steps[m]);
    PublishShows(states[m], states[m + 1]);
  }

  lemma PublishShows(s: State, s': State)
    requires NextStep(s, s', Publish)
    ensures s.writer.Some? && s'.lastTxn == s.writer.value.id && s'.versions == s.versions && s'.writer.None?
  {
  }

  lemma IdKept(s: State, s': State, step: Step)
    requires NextStep(s, s', step) && s.writer.Some? && s'.writer.Some?
    ensures s'.writer.value.id == s.writer.value.id
  {
    hide View, Unlinked, FreelistSaved, MayHold, KeptRecords, Records;
  }

  /** What is committed stays, and so does the transaction that is still there. */
  lemma {:induction false} Committed(states: seq<State>, steps: seq<Step>, k: nat, m: nat, id: TxnId)
    requires RunBy(states, steps) && k <= m <= |steps| && forall j :: k <= j <= m ==> states[j].writer.Some?
    requires id in states[k].versions && states[k].writer.value.id == id
    ensures id in states[m].versions && states[m].versions[id] == states[k].versions[id] && states[m].writer.value.id == id
    decreases m
  {
    hide Inv, Init, View, NextStep;
    if k < m {
      Committed(states, steps, k, m - 1, id);
      RunByInv(states, steps, m - 1);
      assert NextStep(states[m - 1], states[m - 1 + 1], steps[m - 1]);
      VersionsKept(states[m - 1], states[m], steps[m - 1]);
      IdKept(states[m - 1], states[m], steps[m - 1]);
    }
  }

  /** An abort leaves everything committed as it is. */
  lemma AbortForgets(s: State, s': State)
    requires NextStep(s, s', Abort)
    ensures s'.lastTxn == s.lastTxn && s'.versions == s.versions && s'.metas == s.metas && s'.disk == s.disk && s'.writer.None?
  {
  }

  /** A reader starts with the roots of the last committed version. */
  lemma ReaderStartsAtLast(s: State, s': State, i: nat, pid: nat)
    requires Inv(s) && NextStep(s, s', ReaderBegin(i, pid))
    ensures i < |s'.slots| && ActiveReader(s'.slots[i]) && s'.slots[i].txnid == s.lastTxn && s.lastTxn in s.versions
    ensures s'.slots[i].view.roots == s.versions[s.lastTxn].roots
  {
    hide SlotsOk, OldestOk, LiveOk, NewestOk, WriterOk;
  }

  // ---- What can always happen ----------------------------------------------------------------

  /** When no write transaction is open, one can begin. */
  lemma WriterMayBegin(s: State, proc: nat) returns (s': State)
    requires Inv(s) && s.writer.None?
    ensures NextStep(s, s', WriterBegin(proc))
  {
    hide Balanced, WellFormed, Intact, NewestOk, LiveOk;
    var m := s.metas[s.lastTxn % 2];
    s' := s.(writer := Some(Txn(proc, s.lastTxn + 1, m.roots, s.versions[s.lastTxn].pages.Keys, {}, map[], m.next, {}, 0, {}, {}, Active)));
  }

  /** Some page of the trees still has to be written to the file. */
  ghost function Dirty(w: Txn): set<Pgno> {
    w.mem.Keys * w.tree
  }

  lemma DirtyMayFlush(s: State, p: Pgno) returns (s': State)
    requires Inv(s) && s.writer.Some? && s.writer.value.phase == Saved && p in Dirty(s.writer.value)
    ensures NextStep(s, s', Flush(p)) && Inv(s') && s'.lastTxn == s.lastTxn
    ensures s'.writer.Some? && s'.writer.value.phase == Saved && Dirty(s'.writer.value) == Dirty(s.writer.value) - {p}
  {
    hide Inv, WellFormed, Balanced, Records;
    var w := s.writer.value;
    DirtyIsOwn(s, p);
    s' := s.(disk := s.disk[p := w.mem[p]], unsynced := s.unsynced + {p}, writer := Some(w.(mem := w.mem - {p})));
    FlushInv(s, s', p);
  }

  lemma DirtyIsOwn(s: State, p: Pgno)
    requires Inv(s) && s.writer.Some? && s.writer.value.phase == Saved && p in Dirty(s.writer.value)
    ensures p !in s.writer.value.loose && p !in s.writer.value.head
  {
    hide Balanced, WellFormed, Intact, MetasOk, SlotsOk, NewestOk, OldestOk, LiveOk, PoolOk;
  }

  /** A transaction that has saved its free list can be committed: its steps lead to a new version. */
  lemma {:induction false} CommitCompletes(s: State) returns (states: seq<State>)
    requires Inv(s) && s.writer.Some? && s.writer.value.phase == Saved
    ensures |states| > 0 && states[0] == s && forall j :: 0 <= j < |states| - 1 ==> Next(states[j], states[j + 1])
    ensures var e := states[|states| - 1]; e.writer.None? && e.lastTxn == s.lastTxn + 1
    decreases |Dirty(s.writer.value)|
  {
    hide Inv, NextStep, Next;
    var w := s.writer.value;
    if p :| p in Dirty(w) {
      var s' := DirtyMayFlush(s, p);
      assert |Dirty(w) - {p}| < |Dirty(w)|;
      var rest := CommitCompletes(s');
      states := [s] + rest;
      MayStep(s, s', Flush(p));
      assert forall j :: 0 < j < |states| ==> states[j] == rest[j - 1];
    } else {
      states := CleanCommits(s);
    }
  }

  lemma MayStep(s: State, s': State, step: Step)
    requires NextStep(s, s', step)
    ensures Next(s, s')
  {
  }

  lemma CleanCommits(s: State) returns (states: seq<State>)
    requires Inv(s) && s.writer.Some? && s.writer.value.phase == Saved && Dirty(s.writer.value) == {}
    ensures |states| > 0 && states[0] == s && forall j :: 0 <= j < |states| - 1 ==> Next(states[j], states[j + 1])
    ensures var e := states[|states| - 1]; e.writer.None? && e.lastTxn == s.lastTxn + 1
  {
    hide Balanced, WellFormed, Intact, NewestOk, LiveOk, OldestOk, TxnOk;
    var w := s.writer.value;
    var synced := s.(unsynced := {});
    var written := synced.(metas := s.metas[w.id % 2 := Meta(w.id, w.roots, w.next)],
                           versions := s.versions[w.id := Version(w.roots, View(w, s.disk), w.next)],
                           writer := Some(w.(phase := MetaWritten)));
    var done := written.(lastTxn := w.id, writer := None);
    assert NextStep(s, synced, Sync);
    assert forall p :: p in w.mem.Keys && p in w.tree ==> p in Dirty(w);
    assert DoWriteMeta(synced, written);
    assert NextStep(synced, written, WriteMeta);
    assert NextStep(written, done, Publish);
    assert Next(s, synced) && Next(synced, written) && Next(written, done);
    states := [s, synced, written, done];
  }
}
