/**
 The buffers of nested transactions. No two entries of the dirty lists share a buffer and no
 buffer is left over, so a transaction, which writes only to buffers in its own list, cannot reach
 those of its parents: committing keeps its view and aborting restores the parent.
 */
module NestedBuffers {
  import opened DirtyList
  import opened NestedTxn

  /** The buffers in the first n dirty lists. */
  ghost function Bufs(levels: seq<Level>, n: nat): multiset<int>
    requires n <= |levels|
  {
    if n == 0 then multiset{} else Bufs(levels, n - 1) + Ptrs(levels[n - 1].dirty)
  }

  /** Every buffer is in exactly one entry of one list, and no entry has any other. */
  ghost predicate Separate(s: State) {
    Bufs(s.levels, |s.levels|) == multiset(s.mem.Keys)
  }

  ghost predicate Sound(s: State) {
    Valid(s) && Separate(s)
  }

  lemma {:induction false} BufsSame(a: seq<Level>, b: seq<Level>, n: nat)
    requires n <= |a| && n <= |b| && forall j :: 0 <= j < n ==> a[j].dirty == b[j].dirty
    ensures Bufs(a, n) == Bufs(b, n)
  {
    if n > 0 { BufsSame(a, b, n - 1); }
  }

  lemma BufsTop(s: State)
    requires |s.levels| > 0
    ensures Bufs(s.levels, |s.levels|) == Bufs(s.levels, |s.levels| - 1) + Ptrs(Top(s).dirty)
  {
  }

  lemma BufsWithTop(s: State, mem: map<int, int>, pg: PgState, l: Level)
    requires |s.levels| > 0
    ensures Bufs(WithTop(s, mem, pg, l).levels, |s.levels|) == Bufs(s.levels, |s.levels| - 1) + Ptrs(l.dirty)
  {
    hide Ptrs;
    BufsSame(s.levels, WithTop(s, mem, pg, l).levels, |s.levels| - 1);
  }

  /** Where the buffers of list i are among all of them. */
  lemma {:induction false} BufsParts(levels: seq<Level>, n: nat, i: nat, m: nat, a: int)
    requires n <= i < m <= |levels|
    ensures Bufs(levels, m)[a] >= Bufs(levels, n)[a] + Ptrs(levels[i].dirty)[a]
    ensures Bufs(levels, i)[a] >= Bufs(levels, n)[a]
    decreases m + i
  {
    hide Ptrs;
    if i > n { BufsParts(levels, n, i - 1, i, a); }
    if m > i + 1 { BufsParts(levels, n, i, m - 1, a); }
  }

  /** A buffer of one of the first n transactions is in no list further in. */
  lemma {:induction false} OwnedOnce(s: State, n: nat, i: nat, a: int)
    requires Separate(s) && n <= i < |s.levels| && a in Bufs(s.levels, n)
    ensures a in s.mem && a !in Ptrs(s.levels[i].dirty)
  {
    hide Ptrs, Bufs;
    BufsParts(s.levels, n, i, |s.levels|, a);
    assert multiset(s.mem.Keys)[a] <= 1;
  }

  lemma {:induction false} OwnedIsAllocated(s: State, i: nat, a: int)
    requires Separate(s) && i < |s.levels| && a in Ptrs(s.levels[i].dirty)
    ensures a in s.mem
  {
    hide Ptrs, Bufs;
    BufsParts(s.levels, 0, i, |s.levels|, a);
    assert a in multiset(s.mem.Keys);
  }

  // ---- Every step keeps the buffers apart ----------------------------------------------------

  lemma KeysPlus(mem: map<int, int>, a: int, x: int)
    ensures a in mem ==> mem[a := x].Keys == mem.Keys
    ensures a !in mem ==> multiset(mem[a := x].Keys) == multiset(mem.Keys) + multiset{a}
  {
    assert mem[a := x].Keys == mem.Keys + {a};
  }

  lemma KeysWithout(mem: map<int, int>, rest: multiset<int>, freed: multiset<int>)
    requires rest + freed == multiset(mem.Keys)
    ensures multiset(Without(mem, freed).Keys) == rest
  {
    forall a ensures multiset(Without(mem, freed).Keys)[a] == rest[a] {
      assert rest[a] + freed[a] == multiset(mem.Keys)[a] <= 1;
    }
  }

  lemma {:induction false} CopiedSeparates(s: State, pgno: Pgno, a: int, buf: int)
    requires |s.levels| > 0 && Separate(s) && buf !in s.mem
    ensures Separate(Copied(s, pgno, a, buf)) && buf in Ptrs(Top(Copied(s, pgno, a, buf)).dirty)
  {
    hide Ptrs, Bufs, Inserted;
    var t := Top(s);
    var l := t.(dirty := Inserted(t.dirty, Id2(pgno, buf)));
    PtrsInserted(t.dirty, Id2(pgno, buf));
    BufsTop(s);
    BufsWithTop(s, s.mem[buf := Read(s.mem, a)], s.pg, l);
    KeysPlus(s.mem, buf, Read(s.mem, a));
  }

  lemma {:induction false} AllocSeparates(s: State, mem: map<int, int>, pg: PgState, l: Level, mid: Pgno, buf: int, body: int)
    requires |s.levels| > 0 && Separate(s) && buf !in s.mem && mem == s.mem[buf := body]
    requires l.dirty == Inserted(Top(s).dirty, Id2(mid, buf))
    ensures Separate(WithTop(s, mem, pg, l))
  {
    hide Ptrs, Bufs, Inserted;
    PtrsInserted(Top(s).dirty, Id2(mid, buf));
    BufsTop(s);
    BufsWithTop(s, mem, pg, l);
    KeysPlus(s.mem, buf, body);
  }

  lemma {:induction false} SameSeparates(s: State, mem: map<int, int>, pg: PgState, l: Level)
    requires |s.levels| > 0 && Separate(s) && l.dirty == Top(s).dirty && mem.Keys == s.mem.Keys
    ensures Separate(WithTop(s, mem, pg, l))
  {
    hide Ptrs, Bufs;
    BufsTop(s);
    BufsWithTop(s, mem, pg, l);
  }

  /** The buffer a write goes to is in the innermost transaction's list, by the branches of mdb_page_touch. */
  lemma {:induction false} AccessOwns(s: State, pgno: Pgno, buf: int)
    requires |s.levels| > 0 && Separate(s) && buf !in s.mem && Touched(s, pgno, buf).Ready?
    ensures var r := Touched(s, pgno, buf);
            && |r.s.levels| == |s.levels| && r.s.levels[..|s.levels| - 1] == s.levels[..|s.levels| - 1]
            && Separate(r.s) && r.addr in Ptrs(Top(r.s).dirty) && r.addr in r.s.mem
            && (r.addr == buf || r.addr in Ptrs(Top(s).dirty))
            && (forall a :: a in s.mem ==> a in r.s.mem && r.s.mem[a] == s.mem[a])
  {
    hide Touched, Find, Ptrs, Bufs, Has, Inserted, Separate;
    AccessIs(s, pgno, buf);
    FindInPtrs(Top(s).dirty, pgno);
    if Find(Top(s).dirty, pgno).None? {
      var a :| Found(s.levels, |s.levels|, s.disk, pgno) == Some(Buffer(a)) && Touched(s, pgno, buf) == Ready(Copied(s, pgno, a, buf), buf);
      CopiedSeparates(s, pgno, a, buf);
    }
    var r := Touched(s, pgno, buf);
    OwnedIsAllocated(r.s, |r.s.levels| - 1, r.addr);
  }

  lemma {:induction false} WriteSeparates(s: State, pgno: Pgno, buf: int, body: int)
    requires |s.levels| > 0 && Separate(s) && buf !in s.mem && Touched(s, pgno, buf).Ready?
    ensures var r := Touched(s, pgno, buf); Separate(r.s.(mem := r.s.mem[r.addr := body]))
  {
    hide Touched, Ptrs, Bufs;
    AccessOwns(s, pgno, buf);
    KeysPlus(Touched(s, pgno, buf).s.mem, Touched(s, pgno, buf).addr, body);
  }

  lemma {:induction false} LoosenSeparates(s: State, pg: Pgno, link: int, l: Level)
    requires |s.levels| > 0 && Separate(s) && Find(Top(s).dirty, pg).Some? && l.dirty == Top(s).dirty
    ensures Separate(WithTop(s, s.mem[Find(Top(s).dirty, pg).value := link], s.pg, l))
  {
    hide Find, Ptrs, Bufs, Separate;
    FindInPtrs(Top(s).dirty, pg);
    OwnedIsAllocated(s, |s.levels| - 1, Find(Top(s).dirty, pg).value);
    KeysPlus(s.mem, Find(Top(s).dirty, pg).value, link);
    SameSeparates(s, s.mem[Find(Top(s).dirty, pg).value := link], s.pg, l);
  }

  lemma {:induction false} FreeRunSeparates(s: State, x: nat, pg: PgState, l: Level)
    requires |s.levels| > 0 && Separate(s) && x < |Top(s).dirty| && l.dirty == Dropped(Top(s).dirty, x)
    ensures Separate(WithTop(s, Without(s.mem, multiset{Top(s).dirty[x].mptr}), pg, l))
  {
    hide Ptrs, Bufs, Dropped, Without;
    var a := Top(s).dirty[x].mptr;
    PtrsDropped(Top(s).dirty, x);
    BufsTop(s);
    BufsWithTop(s, Without(s.mem, multiset{a}), pg, l);
    assert Bufs(s.levels, |s.levels| - 1) + Ptrs(l.dirty) + multiset{a} == multiset(s.mem.Keys);
    KeysWithout(s.mem, Bufs(s.levels, |s.levels| - 1) + Ptrs(l.dirty), multiset{a});
  }

  lemma {:induction false} BeginSeparates(s: State)
    requires |s.levels| > 0 && Separate(s)
    ensures Separate(Started(s))
  {
    hide Ptrs;
    BufsSame(s.levels, Started(s).levels, |s.levels|);
    PtrsNone();
  }

  lemma {:induction false} CommitSeparates(s: State)
    requires |s.levels| >= 2 && Separate(s)
    ensures Separate(Committed(s))
  {
    hide Ptrs, Overlay, Replaced, Without;
    var n := |s.levels|;
    var p, t, s' := s.levels[n - 2], Top(s), Committed(s);
    OverlayPtrs(p.dirty, t.dirty);
    BufsSame(s.levels, s'.levels, n - 2);
    assert s'.levels[n - 2] == Joined(p, t);
    var rest := Bufs(s.levels, n - 2) + Ptrs(Overlay(p.dirty, t.dirty));
    assert Bufs(s.levels, n) == Bufs(s.levels, n - 2) + (Ptrs(p.dirty) + Ptrs(t.dirty));
    assert rest + Replaced(p.dirty, t.dirty) == Bufs(s.levels, n - 2) + (Ptrs(Overlay(p.dirty, t.dirty)) + Replaced(p.dirty, t.dirty));
    KeysWithout(s.mem, rest, Replaced(p.dirty, t.dirty));
  }

  lemma {:induction false} AbortSeparates(s: State)
    requires |s.levels| >= 2 && Separate(s)
    ensures Separate(Aborted(s))
  {
    hide Ptrs, Without;
    var n := |s.levels|;
    BufsSame(s.levels, Aborted(s).levels, n - 1);
    KeysWithout(s.mem, Bufs(s.levels, n - 1), Ptrs(Top(s).dirty));
  }

  lemma {:induction false} StepSeparates(s: State, s': State, step: Step)
    requires Separate(s) && Next(s, s', step)
    ensures Separate(s')
  {
    hide Separate, Touched, RunTouched, Inserted, Dropped, Without, Mids, Dirty, Find, Meets, Committed, Aborted;
    var t := Top(s);
    match step
    case Begin => BeginSeparates(s);
    case Modify(pgno, buf, body) => WriteSeparates(s, pgno, buf, body);
    case Overwrite(pgno, buf, body) =>
      AccessIs(s, pgno, buf);
      WriteSeparates(s, pgno, buf, body);
    case AllocFromHead(pg, buf, body) => AllocSeparates(s, s'.mem, s'.pg, Top(s'), pg, buf, body);
    case AllocNew(num, buf, body) => AllocSeparates(s, s'.mem, s'.pg, Top(s'), t.next, buf, body);
    case AllocLoose => SameSeparates(s, s.mem, s.pg, Top(s'));
    case Fetch(ids, last) => FetchSeparates(s, s'.pg);
    case Free(pg) => SameSeparates(s, s.mem, s.pg, Top(s'));
    case Loosen(pg, link) => LoosenSeparates(s, pg, link, Top(s'));
    case FreeRun(x, num, ps) => FreeRunSeparates(s, x, s'.pg, Top(s'));
    case SetDb(db, record) => SameSeparates(s, s.mem, s.pg, Top(s'));
    case Commit => CommitSeparates(s);
    case Abort => AbortSeparates(s);
  }

  lemma FetchSeparates(s: State, pg: PgState)
    requires Separate(s)
    ensures Separate(s.(pg := pg))
  {
  }

  lemma {:induction false} RunIsSound(states: seq<State>, steps: seq<Step>, k: nat)
    requires Run(states, steps) && Sound(states[0]) && k <= |steps|
    ensures Sound(states[k])
  {
    hide Next, Valid, Separate;
    RunKeeps(states, steps, k);
    if k > 0 {
      RunIsSound(states, steps, k - 1);
      StepOfRun(states, steps, k);
      StepSeparates(states[k - 1], states[k], steps[k - 1]);
    }
  }

  /** An outermost transaction that has just begun, with nothing dirty. */
  ghost function Outermost(disk: map<Pgno, int>, next: Pgno): State {
    State(disk, map[], PgState({}, 0), [Level([], [], [], next, UM_MAX, map[], PgState({}, 0))])
  }

  lemma {:induction false} OutermostStarts(disk: map<Pgno, int>, next: Pgno)
    requires next > 0
    ensures var s := Outermost(disk, next); Sound(s) && Exact(s.levels, 1)
  {
    var s := Outermost(disk, next);
    assert Dirty(s.levels, 0) == {} && Dirty(s.levels, 1) == {} && ChainOk(s.levels, 0);
    assert Bufs(s.levels, 0) == multiset{} && Bufs(s.levels, 1) == multiset{};
    assert s.mem.Keys == {};
  }

  // ---- What a step reaches -------------------------------------------------------------------

  /** The buffers of the innermost transaction, and on a commit those of its parent's that it replaces. */
  ghost predicate Reaches(s: State, step: Step, a: int)
    requires |s.levels| > 0
  {
    a in Ptrs(Top(s).dirty) || (step.Commit? && |s.levels| > 1 && a in Ptrs(s.levels[|s.levels| - 2].dirty))
  }

  /**
   A step changes and frees only buffers of the innermost transaction; a commit frees buffers of
   the parent it commits into, and changes none.
   */
  lemma {:induction false} ReachesOnlyItsOwn(s: State, s': State, step: Step, a: int)
    requires Separate(s) && Next(s, s', step) && a in s.mem
    ensures a !in s'.mem ==> Reaches(s, step, a)
    ensures a in s'.mem && s'.mem[a] != s.mem[a] ==> Reaches(s, step, a) && !step.Commit? && !step.Abort?
  {
    hide Separate, Touched, RunTouched, Inserted, Dropped, Mids, Dirty, Find, Meets, Ptrs, Replaced, Overlay;
    match step
    case Modify(pgno, buf, body) => AccessOwns(s, pgno, buf);
    case Overwrite(pgno, buf, body) =>
      AccessIs(s, pgno, buf);
      AccessOwns(s, pgno, buf);
    case Loosen(pg, link) => FindInPtrs(Top(s).dirty, pg);
    case FreeRun(x, num, ps) => PtrsDropped(Top(s).dirty, x);
    case Commit => ReplacedInPtrs(s.levels[|s.levels| - 2].dirty, Top(s).dirty, a);
    case _ =>
  }

  lemma {:induction false} ReplacedInPtrs(d: seq<Id2>, s: seq<Id2>, a: int)
    ensures a in Replaced(d, s) ==> a in Ptrs(d)
    decreases |d| + |s|
  {
    if s != [] && d != [] {
      var x, y := d[|d| - 1], s[|s| - 1];
      if y.mid < x.mid { ReplacedInPtrs(d[..|d| - 1], s, a); }
      else if y.mid == x.mid { ReplacedInPtrs(d[..|d| - 1], s[..|s| - 1], a); }
      else { ReplacedInPtrs(d, s[..|s| - 1], a); }
    }
  }

  /** A step that begins and ends more than n deep reaches nothing of the first n transactions. */
  lemma {:induction false} ParentUntouched(s: State, s': State, step: Step, n: nat)
    requires Separate(s) && Next(s, s', step) && n < |s.levels| && n < |s'.levels|
    ensures s'.disk == s.disk && s'.levels[..n] == s.levels[..n] && s'.levels[n].saved == s.levels[n].saved
    ensures forall a :: a in Bufs(s.levels, n) ==> a in s.mem && a in s'.mem && s'.mem[a] == s.mem[a]
  {
    hide Separate, Bufs, Next;
    ListsUntouched(s, s', step, n);
    forall a | a in Bufs(s.levels, n) ensures a in s.mem && a in s'.mem && s'.mem[a] == s.mem[a] {
      OwnedOnce(s, n, |s.levels| - 1, a);
      ReachesOnlyItsOwn(s, s', step, a);
      if step.Commit? {
        CommitDepth(s, s');
        OwnedOnce(s, n, |s.levels| - 2, a);
      }
    }
  }

  lemma CommitDepth(s: State, s': State)
    requires Next(s, s', Commit)
    ensures |s.levels| >= 2 && |s'.levels| == |s.levels| - 1
  {
  }

  lemma {:induction false} ListsUntouched(s: State, s': State, step: Step, n: nat)
    requires Separate(s) && Next(s, s', step) && n < |s.levels| && n < |s'.levels|
    ensures s'.disk == s.disk && s'.levels[..n] == s.levels[..n] && s'.levels[n].saved == s.levels[n].saved
  {
    hide Separate, Touched, RunTouched, Dirty, Mids, Inserted, Overlay, Find, Meets, Dropped, Without, Replaced, Ptrs, Has;
    match step
    case Modify(pgno, buf, body) =>
      AccessIs(s, pgno, buf);
    case Overwrite(pgno, buf, body) =>
      AccessIs(s, pgno, buf);
    case _ =>
  }

  // ---- Aborting ------------------------------------------------------------------------------

  lemma {:induction false} InsideChild(states: seq<State>, steps: seq<Step>, n: nat, k: nat)
    requires Run(states, steps) && Sound(states[0])
    requires 0 < k <= |steps| && |states[0].levels| == n > 0 && steps[0] == Begin
    requires forall i :: 0 < i <= k ==> n < |states[i].levels|
    ensures states[k].disk == states[0].disk && states[k].levels[..n] == states[0].levels
    ensures states[k].levels[n].saved == states[0].pg
    ensures forall a :: a in Bufs(states[0].levels, n) ==>
              a in states[0].mem && a in states[k].mem && states[k].mem[a] == states[0].mem[a]
  {
    hide Valid, Separate, Bufs;
    if k > 1 {
      InsideChild(states, steps, n, k - 1);
      StepOfRun(states, steps, k);
      RunIsSound(states, steps, k - 1);
      ParentUntouched(states[k - 1], states[k], steps[k - 1], n);
      BufsSame(states[k - 1].levels, states[0].levels, n);
    } else {
      StepOfRun(states, steps, 1);
      BufsAllocated(states[0]);
    }
  }

  lemma BufsAllocated(s: State)
    requires Separate(s)
    ensures forall a :: a in Bufs(s.levels, |s.levels|) <==> a in s.mem
  {
    assert forall a :: a in s.mem.Keys <==> a in multiset(s.mem.Keys);
  }

  /**
   Aborting a nested transaction, whatever it wrote, allocated and freed and whatever transactions
   were nested in it, leaves the parent's lists, the contents of every buffer and the state of the
   free pages exactly as they were before it began, and no buffer more or less.
   */
  lemma {:induction false} AbortRestores(states: seq<State>, steps: seq<Step>)
    requires Run(states, steps) && |steps| >= 2 && |states[0].levels| > 0 && Sound(states[0])
    requires steps[0] == Begin && steps[|steps| - 1] == Abort
    requires forall i :: 0 < i < |steps| ==> |states[0].levels| < |states[i].levels|
    requires |states[|steps|].levels| == |states[0].levels|
    ensures states[|steps|] == states[0]
  {
    hide Valid, Separate, Bufs, Ptrs;
    var n, k := |states[0].levels|, |steps| - 1;
    var s, s0, s' := states[k], states[0], states[|steps|];
    InsideChild(states, steps, n, k);
    StepOfRun(states, steps, k + 1);
    assert s'.levels == s0.levels && s'.disk == s0.disk && s'.pg == s0.pg by { assert s.levels[..n] == s0.levels; }
    RunIsSound(states, steps, k + 1);
    BufsAllocated(s0);
    BufsAllocated(s');
    forall a ensures (a in s'.mem <==> a in s0.mem) && (a in s0.mem ==> s'.mem[a] == s0.mem[a]) { }
    assert s'.mem == s0.mem;
  }

  // ---- What is seen --------------------------------------------------------------------------

  /** A nested transaction starts out seeing what its parent sees. */
  lemma {:induction false} BeginKeepsView(s: State, pgno: Pgno)
    requires |s.levels| > 0
    ensures var s' := Started(s); Visible(s', |s'.levels|, pgno) == Visible(s, |s.levels|, pgno)
  {
    var s' := Started(s);
    FoundSame(s'.levels, s.levels, |s.levels|, s.disk, pgno);
    assert Find([], pgno) == None;
  }

  lemma {:induction false} FoundInBufs(levels: seq<Level>, n: nat, disk: map<Pgno, int>, pgno: Pgno)
    requires n <= |levels|
    ensures var f := Found(levels, n, disk, pgno); f.Some? && f.value.Buffer? ==> f.value.addr in Bufs(levels, n)
  {
    hide Find, Ptrs;
    if n > 0 {
      FoundInBufs(levels, n - 1, disk, pgno);
      FindInPtrs(levels[n - 1].dirty, pgno);
    }
  }

  /** Committing a nested transaction leaves every page as the nested transaction saw it. */
  lemma {:induction false} CommitKeepsView(s: State, s': State, pgno: Pgno)
    requires Sound(s) && Next(s, s', Commit)
    ensures Visible(s', |s'.levels|, pgno) == Visible(s, |s.levels|, pgno)
  {
    hide Valid, Separate, Bufs, DirtyList.Ascending, Overlay, Find, Dirty, Replaced, Mids, Meets;
    var n := |s.levels|;
    var p, t := s.levels[n - 2], Top(s);
    JoinedDirty(s);
    OverlayFind(p.dirty, t.dirty, pgno);
    FoundSame(s'.levels, s.levels, n - 2, s.disk, pgno);
    assert Found(s'.levels, n - 1, s.disk, pgno) == Found(s.levels, n, s.disk, pgno);
    StepSeparates(s, s', Commit);
    BufsAllocated(s');
    FoundInBufs(s'.levels, n - 1, s.disk, pgno);
  }

  /** Two pages of a list have two buffers, unless a buffer is in it twice. */
  lemma {:induction false} TwoEntries(s: seq<Id2>, x: nat, y: nat)
    requires x != y && Find(s, x).Some? && Find(s, x) == Find(s, y)
    ensures Ptrs(s)[Find(s, x).value] >= 2
  {
    if s[|s| - 1].mid == x {
      FindInPtrs(s[..|s| - 1], y);
    } else if s[|s| - 1].mid == y {
      FindInPtrs(s[..|s| - 1], x);
    } else {
      TwoEntries(s[..|s| - 1], x, y);
    }
  }

  /** Two pages found in buffers are found in different ones. */
  lemma {:induction false} FoundApart(s: State, x: Pgno, y: Pgno)
    requires |s.levels| > 0 && Separate(s) && x != y && Find(Top(s).dirty, x).Some?
    ensures Found(s.levels, |s.levels|, s.disk, y) != Some(Buffer(Find(Top(s).dirty, x).value))
  {
    hide Find, Ptrs, Bufs;
    var a, n := Find(Top(s).dirty, x).value, |s.levels|;
    BufsTop(s);
    FindInPtrs(Top(s).dirty, x);
    FindInPtrs(Top(s).dirty, y);
    FoundInBufs(s.levels, n - 1, s.disk, y);
    assert Bufs(s.levels, n)[a] <= 1;
    if Find(Top(s).dirty, y) == Some(a) { TwoEntries(Top(s).dirty, x, y); }
  }

  /** Writing to a page changes what the transaction sees of that page, and of no other. */
  lemma {:induction false} WriteIsSeen(s: State, s': State, pgno: Pgno, buf: int, body: int, q: Pgno)
    requires Sound(s) && (Next(s, s', Modify(pgno, buf, body)) || Next(s, s', Overwrite(pgno, buf, body)))
    ensures Visible(s', |s'.levels|, q) == if q == pgno then Some(body) else Visible(s, |s.levels|, q)
  {
    hide Valid, Separate, Bufs, Touched, RunTouched, Find, Ptrs, Inserted, Dirty, Has, Mids;
    AccessIs(s, pgno, buf);
    AccessOwns(s, pgno, buf);
    var r, n := Touched(s, pgno, buf), |s.levels|;
    if Find(Top(s).dirty, pgno).None? {
      var a :| Found(s.levels, n, s.disk, pgno) == Some(Buffer(a)) && r == Ready(Copied(s, pgno, a, buf), buf);
      CopyFound(s, pgno, a, buf, q);
    }
    FoundHere(r.s, pgno);
    if q != pgno {
      FoundApart(r.s, pgno, q);
      FoundInBufs(s.levels, n, s.disk, q);
      BufsAllocated(s);
    }
  }

  /** After a copy the page is found in the new buffer, every other page where it was. */
  lemma {:induction false} CopyFound(s: State, pgno: Pgno, a: int, buf: int, q: Pgno)
    requires |s.levels| > 0 && !Has(Top(s).dirty, pgno)
    ensures var s' := Copied(s, pgno, a, buf);
            Found(s'.levels, |s.levels|, s.disk, q) == if q == pgno then Some(Buffer(buf)) else Found(s.levels, |s.levels|, s.disk, q)
    ensures Find(Top(Copied(s, pgno, a, buf)).dirty, pgno) == Some(buf)
  {
    hide Find, Inserted, Has;
    FindInserted(Top(s).dirty, Id2(pgno, buf), q);
    FindInserted(Top(s).dirty, Id2(pgno, buf), pgno);
    FoundSame(s.levels, Copied(s, pgno, a, buf).levels, |s.levels| - 1, s.disk, q);
  }

  lemma FoundHere(s: State, pgno: Pgno)
    requires |s.levels| > 0 && Find(Top(s).dirty, pgno).Some?
    ensures Found(s.levels, |s.levels|, s.disk, pgno) == Some(Buffer(Find(Top(s).dirty, pgno).value))
  {
  }
}
