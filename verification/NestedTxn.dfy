/**
 Nested write transactions as overlays: mdb_page_get through the chain of dirty lists, the start
 of a nested transaction, what it does to pages, its commit into the parent and its abort.
 No transaction of the chain has spilled pages.

 A dirty list names the buffers its pages have in memory. What a write reaches is decided by the
 page lookup and the branches of mdb_page_touch and mdb_cursor_put, so that a transaction leaves
 its parent's buffers alone is a theorem here.
 */
module NestedTxn {
  import opened DirtyList

  type Pgno = nat

  /** MDB_pgstate: me_pghead as a set, and me_pglast. */
  datatype PgState = PgState(head: set<Pgno>, pglast: nat)

  /**
   A transaction of the chain: `dbs` is its table of databases, each entry their record (root, depth
   and counters) as a number, and `saved` the state of the free pages when it began.
   */
  datatype Level = Level(dirty: seq<Id2>, freed: seq<Pgno>, loose: seq<Pgno>, next: Pgno, room: nat,
                         dbs: map<nat, int>, saved: PgState)

  /** `levels` run from the outermost transaction to the innermost; `mem` are the buffers allocated for dirty pages. */
  datatype State = State(disk: map<Pgno, int>, mem: map<int, int>, pg: PgState, levels: seq<Level>)

  // ---- What a transaction sees ---------------------------------------------------------------

  /** Where a page is: in a buffer, or in the map of the file. */
  datatype Ref = Buffer(addr: int) | Mapped(pgno: Pgno)

  /** The innermost version of a page among the first n transactions, or the one in the file. */
  ghost function Found(levels: seq<Level>, n: nat, disk: map<Pgno, int>, pgno: Pgno): Option<Ref>
    requires n <= |levels|
  {
    if n == 0 then (if pgno in disk then Some(Mapped(pgno)) else None)
    else
      match Find(levels[n - 1].dirty, pgno)
      case Some(a) => Some(Buffer(a))
      case None => Found(levels, n - 1, disk, pgno)
  }

  /** How many lists out that is, 1 being the innermost transaction's; 0 for the file. */
  ghost function Depth(levels: seq<Level>, n: nat, pgno: Pgno): nat
    requires n <= |levels|
  {
    if n == 0 then 0
    else if Find(levels[n - 1].dirty, pgno).Some? then 1
    else if Depth(levels, n - 1, pgno) == 0 then 0 else Depth(levels, n - 1, pgno) + 1
  }

  ghost function Read(mem: map<int, int>, a: int): int {
    if a in mem then mem[a] else 0
  }

  /** The contents of a page as the first n transactions see it. */
  ghost function Visible(s: State, n: nat, pgno: Pgno): Option<int>
    requires n <= |s.levels|
  {
    match Found(s.levels, n, s.disk, pgno)
    case None => None
    case Some(Buffer(a)) => Some(Read(s.mem, a))
    case Some(Mapped(p)) => if p in s.disk then Some(s.disk[p]) else None
  }

  /** Look a page up in one dirty list. */
  method InList(dl: array<Id2>, pgno: Pgno) returns (page: Option<int>)
    requires IsList(dl) && Ascending(Items(dl))
    ensures page == Find(Items(dl), pgno)
  {
    hide Below, Ascending;
    ghost var s := Items(dl);
    FindHas(s, pgno);
    HasAtBelow(s, pgno);
    if dl[0].mid > 0 {
      var x := Search(dl, pgno);
      if x <= dl[0].mid && dl[x].mid == pgno {
        FindAt(s, x - 1);
        return Some(dl[x].mptr);
      }
    }
    page := None;
  }

  /** mdb_page_get: walk the dirty lists from the innermost one out, then look in the map. */
  method PageGet(lists: seq<array<Id2>>, disk: map<Pgno, int>, next: Pgno, pgno: Pgno, ghost levels: seq<Level>)
    returns (page: Option<Ref>, level: nat)
    requires |levels| == |lists|
    requires forall i :: 0 <= i < |lists| ==> IsList(lists[i]) && Ascending(Items(lists[i])) && levels[i].dirty == Items(lists[i])
    requires forall p :: p in disk <==> p < next
    ensures page == Found(levels, |levels|, disk, pgno) && level == Depth(levels, |levels|, pgno)
  {
    hide Ascending, Find;
    level := 1;
    var tx2 := |lists|;
    while tx2 > 0
      invariant 0 <= tx2 <= |lists| && level == |lists| - tx2 + 1
      invariant Found(levels, |levels|, disk, pgno) == Found(levels, tx2, disk, pgno)
      invariant Depth(levels, |levels|, pgno) == if Depth(levels, tx2, pgno) == 0 then 0 else Depth(levels, tx2, pgno) + level - 1
    {
      var a := InList(lists[tx2 - 1], pgno);
      if a.Some? { return Some(Buffer(a.value)), level; }
      level, tx2 := level + 1, tx2 - 1;
    }
    level := 0;
    page := if pgno < next then Some(Mapped(pgno)) else None;
  }

  // ---- Pages dirty in a chain ----------------------------------------------------------------

  ghost function Mids(s: seq<Id2>): set<Pgno> {
    set x | 0 <= x < |s| :: s[x].mid
  }

  ghost function Dirty(levels: seq<Level>, n: nat): set<Pgno>
    requires n <= |levels|
  {
    if n == 0 then {} else Dirty(levels, n - 1) + Mids(levels[n - 1].dirty)
  }

  lemma {:induction false} MidsFind(s: seq<Id2>, m: Pgno)
    ensures m in Mids(s) <==> Find(s, m).Some?
  {
    FindHas(s, m);
  }

  lemma {:induction false} MidsSize(s: seq<Id2>)
    requires DirtyList.Ascending(s)
    ensures |Mids(s)| == |s|
  {
    if s != [] {
      var t := s[..|s| - 1];
      MidsSize(t);
      MidsLast(s);
      assert s[|s| - 1].mid !in Mids(t);
    }
  }

  lemma MidsLast(s: seq<Id2>)
    requires s != []
    ensures Mids(s) == Mids(s[..|s| - 1]) + {s[|s| - 1].mid}
  {
    var t := s[..|s| - 1];
    forall m | m in Mids(s) ensures m in Mids(t) + {s[|s| - 1].mid} {
      var x :| 0 <= x < |s| && s[x].mid == m;
      assert x < |t| ==> t[x].mid == m;
    }
    forall m | m in Mids(t) ensures m in Mids(s) {
      var x :| 0 <= x < |t| && t[x].mid == m;
      assert s[x].mid == m;
    }
  }

  lemma {:induction false} MidsOverlay(d: seq<Id2>, s: seq<Id2>)
    requires DirtyList.Ascending(d) && DirtyList.Ascending(s)
    ensures Mids(Overlay(d, s)) == Mids(d) + Mids(s)
  {
    forall m ensures m in Mids(Overlay(d, s)) <==> m in Mids(d) + Mids(s) {
      OverlayFind(d, s, m);
      MidsFind(d, m);
      MidsFind(s, m);
      MidsFind(Overlay(d, s), m);
    }
  }

  lemma {:induction false} DirtySame(a: seq<Level>, b: seq<Level>, n: nat)
    requires n <= |a| && n <= |b| && forall j :: 0 <= j < n ==> a[j].dirty == b[j].dirty
    ensures Dirty(a, n) == Dirty(b, n)
  {
    if n > 0 { DirtySame(a, b, n - 1); }
  }

  lemma {:induction false} FoundSame(a: seq<Level>, b: seq<Level>, n: nat, disk: map<Pgno, int>, pgno: Pgno)
    requires n <= |a| && n <= |b| && forall j :: 0 <= j < n ==> a[j].dirty == b[j].dirty
    ensures Found(a, n, disk, pgno) == Found(b, n, disk, pgno)
  {
    if n > 0 { FoundSame(a, b, n - 1, disk, pgno); }
  }

  // ---- Inserting and dropping an entry ---------------------------------------------------------

  lemma {:induction false} SplicedMids(a: seq<Id2>, id: Id2, c: seq<Id2>)
    ensures Mids(a + [id] + c) == Mids(a + c) + {id.mid}
  {
    var s, t, n := a + c, a + [id] + c, |a|;
    assert forall x :: 0 <= x < |s| ==> s[x] == t[if x < n then x else x + 1];
    assert forall x :: 0 <= x < |t| && x != n ==> t[x] == s[if x < n then x else x - 1];
    assert t[n] == id;
  }

  lemma {:induction false} SplicedAscends(a: seq<Id2>, id: Id2, c: seq<Id2>)
    requires DirtyList.Ascending(a + c) && (a != [] ==> a[|a| - 1].mid < id.mid) && (c != [] ==> id.mid < c[0].mid)
    ensures DirtyList.Ascending(a + [id] + c)
  {
    var s, t, n := a + c, a + [id] + c, |a|;
    Ordered(s);
    assert (n > 0 ==> s[n - 1] == a[n - 1]) && (n < |s| ==> s[n] == c[0]);
    forall x, y | 0 <= x < y < |t| ensures t[x].mid < t[y].mid {
      assert t[x] == (if x < n then s[x] else if x == n then id else s[x - 1]);
      assert t[y] == (if y < n then s[y] else if y == n then id else s[y - 1]);
    }
  }

  lemma {:induction false} InsertedEntries(s: seq<Id2>, id: Id2)
    requires DirtyList.Ascending(s) && !Has(s, id.mid)
    ensures DirtyList.Ascending(Inserted(s, id)) && Mids(Inserted(s, id)) == Mids(s) + {id.mid}
  {
    hide DirtyList.Ascending, Mids;
    var n := Below(s, id.mid);
    var a, c := s[..n], s[n..];
    assert a + c == s;
    assert n < |s| ==> s[n].mid != id.mid;
    SplicedMids(a, id, c);
    SplicedAscends(a, id, c);
  }

  lemma {:induction false} DroppedEntries(s: seq<Id2>, x: nat)
    requires DirtyList.Ascending(s) && x < |s|
    ensures DirtyList.Ascending(Dropped(s, x)) && Mids(Dropped(s, x)) == Mids(s) - {s[x].mid}
  {
    var t := Dropped(s, x);
    assert forall y :: 0 <= y < |t| ==> t[y] == s[if y < x then y else y + 1];
    forall m | m in Mids(s) && m != s[x].mid ensures m in Mids(t) {
      var y :| 0 <= y < |s| && s[y].mid == m;
      assert t[if y < x then y else y - 1].mid == m;
    }
  }

  // ---- Steps ---------------------------------------------------------------------------------

  datatype Step =
    | Begin
    | Modify(pgno: Pgno, buf: int, body: int)
    | Overwrite(pgno: Pgno, buf: int, body: int)
    | AllocFromHead(pg: Pgno, buf: int, body: int)
    | AllocNew(num: nat, buf: int, body: int)
    | AllocLoose
    | Fetch(ids: set<Pgno>, last: nat)
    | Free(pg: Pgno)
    | Loosen(pg: Pgno, link: int)
    | FreeRun(x: nat, num: nat, ps: set<Pgno>)
    | SetDb(db: nat, record: int)
    | Commit
    | Abort

  ghost function Top(s: State): Level
    requires |s.levels| > 0
  {
    s.levels[|s.levels| - 1]
  }

  ghost function WithTop(s: State, mem: map<int, int>, pg: PgState, l: Level): State
    requires |s.levels| > 0
  {
    State(s.disk, mem, pg, s.levels[..|s.levels| - 1] + [l])
  }

  /** mdb_txn_begin with a parent: the free-page state is saved, the room is the parent's. */
  ghost function Started(s: State): State
    requires |s.levels| > 0
  {
    s.(levels := s.levels + [Level([], [], [], Top(s).next, Top(s).room, Top(s).dbs, s.pg)])
  }

  /** Take a page for writing (mdb_page_dirty). */
  ghost function Dirtied(l: Level, pg: Pgno, a: int): Level
    requires l.room > 0
  {
    l.(dirty := Inserted(l.dirty, Id2(pg, a)), room := l.room - 1)
  }

  /** What a transaction gets that asks for a page to write to: a buffer, perhaps a new one. */
  datatype Access = Ready(s: State, addr: int) | Clean | Corrupted | Missing

  /** A copy of the page at `a`, in a new buffer, is entered in the innermost transaction's list. */
  ghost function Copied(s: State, pgno: Pgno, a: int, buf: int): State
    requires |s.levels| > 0
  {
    var t := Top(s);
    WithTop(s, s.mem[buf := Read(s.mem, a)], s.pg, t.(dirty := Inserted(t.dirty, Id2(pgno, buf))))
  }

  /**
   mdb_page_touch of a page found by mdb_page_get (mdb.c:2253-2285). A page that is dirty nowhere
   in the chain is copied to a newly allocated page instead: an allocation step and a Free step.
   */
  ghost function Touched(s: State, pgno: Pgno, buf: int): Access
    requires |s.levels| > 0
  {
    match Found(s.levels, |s.levels|, s.disk, pgno)
    case None => Missing
    case Some(Mapped(_)) => Clean
    case Some(Buffer(a)) =>
      if |s.levels| == 1 then Ready(s, a)
      else
        match Find(Top(s).dirty, pgno)
        case Some(b) => if a == b then Ready(s, a) else Corrupted
        case None => Ready(Copied(s, pgno, a, buf), buf)
  }

  /** mdb_cursor_put on an overflow run that is large enough: a run dirty in a parent is copied (mdb.c:6318-6376). */
  ghost function RunTouched(s: State, pgno: Pgno, buf: int): Access
    requires |s.levels| > 0
  {
    match Found(s.levels, |s.levels|, s.disk, pgno)
    case None => Missing
    case Some(Mapped(_)) => Clean
    case Some(Buffer(a)) =>
      if Depth(s.levels, |s.levels|, pgno) > 1 then Ready(Copied(s, pgno, a, buf), buf) else Ready(s, a)
  }

  /** The buffers but those that are freed. */
  ghost function Without(mem: map<int, int>, freed: multiset<int>): map<int, int> {
    map a | a in mem && a !in freed :: mem[a]
  }

  /** The parent after a nested transaction committed into it (mdb.c:3235-3345). */
  ghost function Joined(parent: Level, child: Level): Level {
    Level(Overlay(parent.dirty, child.dirty), parent.freed + child.freed, parent.loose + child.loose,
          child.next, child.room, child.dbs, parent.saved)
  }

  /** mdb_txn_commit of the innermost transaction into its parent, whose own copies of its pages are freed. */
  ghost function Committed(s: State): State
    requires |s.levels| >= 2
  {
    var p, t := s.levels[|s.levels| - 2], Top(s);
    State(s.disk, Without(s.mem, Replaced(p.dirty, t.dirty)), s.pg, s.levels[..|s.levels| - 2] + [Joined(p, t)])
  }

  /** mdb_txn_abort of the innermost transaction: its buffers are freed, the free pages are those saved. */
  ghost function Aborted(s: State): State
    requires |s.levels| >= 2
  {
    State(s.disk, Without(s.mem, Ptrs(Top(s).dirty)), Top(s).saved, s.levels[..|s.levels| - 1])
  }

  /** The indices of the merge meet: the union is counted, or the room is exact (DirtyList.CommitDirty). */
  ghost predicate Meets(s: State)
    requires |s.levels| >= 2
  {
    |s.levels| > 2 || Top(s).room == UM_MAX - |Overlay(s.levels[0].dirty, s.levels[1].dirty)|
  }

  ghost predicate Next(s: State, s': State, step: Step) {
    |s.levels| > 0 &&
    var n, t := |s.levels|, Top(s);
    match step
    case Begin => s' == Started(s)
    case Modify(pgno, buf, body) =>
      buf !in s.mem && var r := Touched(s, pgno, buf);
      r.Ready? && s' == r.s.(mem := r.s.mem[r.addr := body])
    case Overwrite(pgno, buf, body) =>
      buf !in s.mem && var r := RunTouched(s, pgno, buf);
      r.Ready? && s' == r.s.(mem := r.s.mem[r.addr := body])
    case AllocFromHead(pg, buf, body) =>
      && pg in s.pg.head && t.room > 0 && buf !in s.mem
      && s' == WithTop(s, s.mem[buf := body], s.pg.(head := s.pg.head - {pg}), Dirtied(t, pg, buf))
    case AllocNew(num, buf, body) =>
      && num > 0 && t.room > 0 && buf !in s.mem
      && s' == WithTop(s, s.mem[buf := body], s.pg, Dirtied(t, t.next, buf).(next := t.next + num))
    case AllocLoose => t.loose != [] && s' == WithTop(s, s.mem, s.pg, t.(loose := t.loose[1..]))
    case Fetch(ids, last) =>
      && (forall p :: p in ids ==> 0 < p < t.next && p !in Dirty(s.levels, n))
      && s' == s.(pg := PgState(s.pg.head + ids, last))
    case Free(pg) => s' == WithTop(s, s.mem, s.pg, t.(freed := t.freed + [pg]))
    case Loosen(pg, link) =>
      // mdb_page_loose of a page in the transaction's own list; the page itself holds the link to the next one
      && Find(t.dirty, pg).Some?
      && s' == WithTop(s, s.mem[Find(t.dirty, pg).value := link], s.pg, t.(loose := [pg] + t.loose))
    case FreeRun(x, num, ps) =>
      // mdb_ovpage_free, never in a nested transaction; mt_dirty_room stays as it is
      && n == 1 && s.pg.pglast > 0 && x < |t.dirty| && num > 0 && t.dirty[x].mid + num <= t.next && t.dirty[x].mid !in t.loose
      && (forall p :: p in ps <==> t.dirty[x].mid <= p < t.dirty[x].mid + num)
      && ps * Mids(t.dirty) == {t.dirty[x].mid}
      && s' == WithTop(s, Without(s.mem, multiset{t.dirty[x].mptr}), s.pg.(head := s.pg.head + ps), t.(dirty := Dropped(t.dirty, x)))
    case SetDb(db, record) => s' == WithTop(s, s.mem, s.pg, t.(dbs := t.dbs[db := record]))
    case Commit => n >= 2 && Meets(s) && s' == Committed(s)
    case Abort => n >= 2 && s' == Aborted(s)
  }

  // ---- The accounting of the chain -----------------------------------------------------------

  /** Free pages are not dirty, and lie in the file. */
  ghost predicate HeadOk(head: set<Pgno>, dirty: set<Pgno>, next: Pgno) {
    head !! dirty && forall p :: p in head ==> 0 < p < next
  }

  ghost predicate LevelOk(l: Level, dirty: set<Pgno>) {
    && DirtyList.Ascending(l.dirty) && (forall m :: m in dirty ==> 0 < m < l.next)
    && l.room + |dirty| <= UM_MAX
    && (forall x :: x in l.loose ==> x in Mids(l.dirty))
  }

  ghost predicate ChainOk(levels: seq<Level>, n: nat)
    requires n <= |levels|
  {
    n > 0 ==>
      && ChainOk(levels, n - 1) && LevelOk(levels[n - 1], Dirty(levels, n)) && levels[n - 1].next > 0
      && (n > 1 ==> HeadOk(levels[n - 1].saved.head, Dirty(levels, n - 1), levels[n - 2].next) &&
                    levels[n - 2].next <= levels[n - 1].next)
  }

  ghost predicate Valid(s: State) {
    && |s.levels| > 0 && ChainOk(s.levels, |s.levels|)
    && HeadOk(s.pg.head, Dirty(s.levels, |s.levels|), Top(s).next)
  }

  /** mt_dirty_room of each of the first n transactions is `lost` less than documented. */
  ghost predicate Short(levels: seq<Level>, n: nat, lost: nat)
    requires n <= |levels|
  {
    n > 0 ==> Short(levels, n - 1, lost) && levels[n - 1].room + |Dirty(levels, n)| + lost == UM_MAX
  }

  /** mt_dirty_room as documented: what a list may hold, less the dirty pages visible to the transaction. */
  ghost predicate Exact(levels: seq<Level>, n: nat)
    requires n <= |levels|
  {
    forall i :: 0 <= i < n ==> levels[i].room == UM_MAX - |Dirty(levels, i + 1)|
  }

  lemma {:induction false} SamePrefix(a: seq<Level>, b: seq<Level>, n: nat, lost: nat)
    requires n <= |a| && n <= |b| && forall j :: 0 <= j < n ==> a[j] == b[j]
    ensures Dirty(a, n) == Dirty(b, n) && (ChainOk(a, n) <==> ChainOk(b, n)) && (Short(a, n, lost) <==> Short(b, n, lost))
  {
    hide LevelOk, HeadOk;
    if n > 0 {
      SamePrefix(a, b, n - 1, lost);
      if n > 1 { DirtySame(a, b, n - 1); }
    }
  }

  /** Replacing the innermost transaction by one that is in order with the others. */
  lemma {:induction false} TopKeeps(s: State, mem: map<int, int>, pg: PgState, l: Level, lost: nat)
    requires Valid(s)
    requires var d := Dirty(s.levels, |s.levels| - 1) + Mids(l.dirty); LevelOk(l, d) && HeadOk(pg.head, d, l.next)
    requires l.saved == Top(s).saved && Top(s).next <= l.next
    ensures Valid(WithTop(s, mem, pg, l))
    ensures var d := Dirty(s.levels, |s.levels| - 1) + Mids(l.dirty); var n := |s.levels|;
            Short(s.levels, n - 1, lost) && l.room + |d| + lost == UM_MAX ==> Short(WithTop(s, mem, pg, l).levels, n, lost)
  {
    hide LevelOk, HeadOk, Mids;
    var n, s' := |s.levels|, WithTop(s, mem, pg, l);
    SamePrefix(s.levels, s'.levels, n - 1, lost);
    assert s'.levels[n - 1] == l && (n > 1 ==> s'.levels[n - 2] == s.levels[n - 2]);
  }

  lemma {:induction false} TopFacts(s: State, lost: nat)
    requires Valid(s)
    ensures |s.levels| > 0 && Top(s).next > 0
    ensures var n := |s.levels|;
            && Dirty(s.levels, n) == Dirty(s.levels, n - 1) + Mids(Top(s).dirty)
            && LevelOk(Top(s), Dirty(s.levels, n)) && HeadOk(s.pg.head, Dirty(s.levels, n), Top(s).next)
            && (Short(s.levels, n, lost) <==> Short(s.levels, n - 1, lost) && Top(s).room + |Dirty(s.levels, n)| + lost == UM_MAX)
  {
  }

  lemma {:induction false} BeginKeeps(s: State, lost: nat)
    requires Valid(s)
    ensures Valid(Started(s)) && (Short(s.levels, |s.levels|, lost) ==> Short(Started(s).levels, |s.levels| + 1, lost))
  {
    var n, s' := |s.levels|, Started(s);
    TopFacts(s, lost);
    SamePrefix(s.levels, s'.levels, n, lost);
    assert Mids([]) == {};
    assert Dirty(s'.levels, n + 1) == Dirty(s.levels, n) + Mids(s'.levels[n].dirty);
  }

  /** One more page in the innermost list. */
  lemma {:induction false} DirtyOneMore(s: State, mem: map<int, int>, pg: PgState, l: Level, mid: Pgno, lost: nat)
    requires Valid(s) && DirtyList.Ascending(l.dirty) && Mids(l.dirty) == Mids(Top(s).dirty) + {mid}
    requires 0 < mid < l.next && Top(s).next <= l.next && l.saved == Top(s).saved && l.loose == Top(s).loose
    requires pg.head !! {mid} && pg.head <= s.pg.head
    requires |s.levels| > 0 && l.room + (if mid in Dirty(s.levels, |s.levels|) then 0 else 1) == Top(s).room
    ensures Valid(WithTop(s, mem, pg, l)) && (Short(s.levels, |s.levels|, lost) ==> Short(WithTop(s, mem, pg, l).levels, |s.levels|, lost))
  {
    hide Valid, Short, Mids, DirtyList.Ascending;
    var n := |s.levels|;
    var d := Dirty(s.levels, n - 1) + Mids(l.dirty);
    TopFacts(s, lost);
    assert d == Dirty(s.levels, n) + {mid};
    TopKeeps(s, mem, pg, l, lost);
  }

  lemma {:induction false} CopiedKeeps(s: State, pgno: Pgno, a: int, buf: int, lost: nat)
    requires Valid(s) && !Has(Top(s).dirty, pgno) && pgno in Dirty(s.levels, |s.levels|)
    ensures Valid(Copied(s, pgno, a, buf))
    ensures Short(s.levels, |s.levels|, lost) ==> Short(Copied(s, pgno, a, buf).levels, |s.levels|, lost)
  {
    hide Valid, Short, Mids, DirtyList.Ascending, Inserted;
    TopFacts(s, lost);
    InsertedEntries(Top(s).dirty, Id2(pgno, buf));
    DirtyOneMore(s, s.mem[buf := Read(s.mem, a)], s.pg, Top(s).(dirty := Inserted(Top(s).dirty, Id2(pgno, buf))), pgno, lost);
  }

  lemma {:induction false} AllocKeeps(s: State, pg: PgState, page: Pgno, buf: int, body: int, next: Pgno, lost: nat)
    requires Valid(s) && Top(s).room > 0 && page !in Dirty(s.levels, |s.levels|)
    requires 0 < page < next && Top(s).next <= next && pg.head <= s.pg.head && page !in pg.head
    ensures var s' := WithTop(s, s.mem[buf := body], pg, Dirtied(Top(s), page, buf).(next := next));
            Valid(s') && (Short(s.levels, |s.levels|, lost) ==> Short(s'.levels, |s.levels|, lost))
  {
    hide Valid, Short, DirtyList.Ascending, Inserted;
    TopFacts(s, lost);
    MidsFind(Top(s).dirty, page);
    FindHas(Top(s).dirty, page);
    InsertedEntries(Top(s).dirty, Id2(page, buf));
    DirtyOneMore(s, s.mem[buf := body], pg, Dirtied(Top(s), page, buf).(next := next), page, lost);
  }

  /** Steps that change neither which pages are dirty nor the free list. */
  lemma {:induction false} SameDirtyKeeps(s: State, mem: map<int, int>, l: Level, lost: nat)
    requires Valid(s) && l.dirty == Top(s).dirty
    requires l.room == Top(s).room && l.next == Top(s).next && l.saved == Top(s).saved
    requires forall x :: x in l.loose ==> x in Mids(l.dirty)
    ensures Valid(WithTop(s, mem, s.pg, l))
    ensures Short(s.levels, |s.levels|, lost) ==> Short(WithTop(s, mem, s.pg, l).levels, |s.levels|, lost)
  {
    hide Valid, Short, Mids, DirtyList.Ascending;
    TopFacts(s, lost);
    TopKeeps(s, mem, s.pg, l, lost);
  }

  /** A page found in a buffer is dirty in the chain; it is in the innermost list exactly at depth 1. */
  lemma {:induction false} FoundDirty(levels: seq<Level>, n: nat, disk: map<Pgno, int>, pgno: Pgno)
    requires n <= |levels|
    ensures var f := Found(levels, n, disk, pgno); f.Some? && f.value.Buffer? <==> pgno in Dirty(levels, n)
    ensures pgno in Dirty(levels, n) <==> Depth(levels, n, pgno) > 0
    ensures n > 0 ==> (Find(levels[n - 1].dirty, pgno).Some? <==> Depth(levels, n, pgno) == 1)
  {
    hide Find, Mids;
    if n > 0 {
      FoundDirty(levels, n - 1, disk, pgno);
      MidsFind(levels[n - 1].dirty, pgno);
    }
  }

  /** What both ways to a writable page come to: the page's own buffer if it is the innermost transaction's, else a copy. */
  lemma {:induction false} AccessIs(s: State, pgno: Pgno, buf: int)
    requires |s.levels| > 0
    ensures RunTouched(s, pgno, buf) == Touched(s, pgno, buf) && !Touched(s, pgno, buf).Corrupted?
    ensures var r, own := Touched(s, pgno, buf), Find(Top(s).dirty, pgno);
            r.Ready? ==>
              && pgno in Dirty(s.levels, |s.levels|) && (own.Some? <==> Has(Top(s).dirty, pgno))
              && if own.Some? then r == Ready(s, own.value)
                 else exists a :: Found(s.levels, |s.levels|, s.disk, pgno) == Some(Buffer(a)) && r == Ready(Copied(s, pgno, a, buf), buf)
  {
    hide Find, Mids, Copied;
    var n := |s.levels|;
    FoundDirty(s.levels, n, s.disk, pgno);
    FoundDirty(s.levels, n - 1, s.disk, pgno);
    FindHas(Top(s).dirty, pgno);
    assert Dirty(s.levels, 0) == {};
  }

  lemma {:induction false} WriteKeeps(s: State, pgno: Pgno, buf: int, body: int, lost: nat)
    requires Valid(s) && Touched(s, pgno, buf).Ready?
    ensures var r := Touched(s, pgno, buf); var s' := r.s.(mem := r.s.mem[r.addr := body]);
            && Valid(s') && |s'.levels| == |s.levels|
            && (Short(s.levels, |s.levels|, lost) ==> Short(s'.levels, |s.levels|, lost))
  {
    hide Touched, RunTouched, Short, Find, Mids, Dirty, Has, ChainOk, HeadOk;
    AccessIs(s, pgno, buf);
    if Find(Top(s).dirty, pgno).None? {
      var a :| Found(s.levels, |s.levels|, s.disk, pgno) == Some(Buffer(a)) && Touched(s, pgno, buf) == Ready(Copied(s, pgno, a, buf), buf);
      CopiedKeeps(s, pgno, a, buf, lost);
    }
  }

  /** Giving an overflow run back leaves one entry less, and the room one more short of what is documented. */
  lemma {:induction false} FreeRunKeeps(s: State, x: nat, num: nat, ps: set<Pgno>, s': State, lost: nat)
    requires Valid(s) && Next(s, s', FreeRun(x, num, ps))
    ensures Valid(s') && (Short(s.levels, 1, lost) ==> Short(s'.levels, 1, lost + 1))
  {
    hide DirtyList.Ascending, Dropped;
    var t := Top(s);
    var l := t.(dirty := Dropped(t.dirty, x));
    TopFacts(s, lost);
    DroppedEntries(t.dirty, x);
    assert Dirty(s.levels, 0) == {};
    assert t.dirty[x].mid in Mids(t.dirty);
    assert |Mids(l.dirty)| == |Mids(t.dirty)| - 1;
    assert {} + Mids(l.dirty) == Mids(l.dirty) && {} + Mids(t.dirty) == Mids(t.dirty);
    TopKeeps(s, s'.mem, s.pg.(head := s.pg.head + ps), l, lost + 1);
    assert Dirty(s'.levels, 1) == Dirty(s'.levels, 0) + Mids(l.dirty) && Dirty(s'.levels, 0) == {};
  }

  lemma {:induction false} AbortKeeps(s: State, lost: nat)
    requires Valid(s) && |s.levels| >= 2
    ensures |Aborted(s).levels| == |s.levels| - 1 && Valid(Aborted(s)) && (Short(s.levels, |s.levels|, lost) ==> Short(Aborted(s).levels, |s.levels| - 1, lost))
  {
    hide LevelOk, HeadOk;
    SamePrefix(s.levels, s.levels[..|s.levels| - 1], |s.levels| - 1, lost);
  }

  lemma {:induction false} FetchKeeps(s: State, ids: set<Pgno>, last: nat)
    requires Valid(s) && forall p :: p in ids ==> 0 < p < Top(s).next && p !in Dirty(s.levels, |s.levels|)
    ensures Valid(s.(pg := PgState(s.pg.head + ids, last)))
  {
    hide LevelOk, ChainOk;
  }

  /** The chain after the innermost transaction joined its parent: the same pages are dirty. */
  lemma {:induction false} JoinedDirty(s: State)
    requires Valid(s) && |s.levels| >= 2
    ensures var n := |s.levels|; var p, t := s.levels[n - 2], Top(s);
            && DirtyList.Ascending(p.dirty) && DirtyList.Ascending(t.dirty)
            && DirtyList.Ascending(Joined(p, t).dirty) && Mids(Joined(p, t).dirty) == Mids(p.dirty) + Mids(t.dirty)
            && Dirty(s.levels, n) == Dirty(s.levels, n - 2) + Mids(Joined(p, t).dirty)
  {
    hide HeadOk, Mids, DirtyList.Ascending, Overlay;
    var n := |s.levels|;
    var p, t := s.levels[n - 2], Top(s);
    assert ChainOk(s.levels, n - 1);
    assert LevelOk(p, Dirty(s.levels, n - 1)) && LevelOk(t, Dirty(s.levels, n));
    OverlayAscends(p.dirty, t.dirty);
    MidsOverlay(p.dirty, t.dirty);
    assert Dirty(s.levels, n - 1) == Dirty(s.levels, n - 2) + Mids(p.dirty);
  }

  lemma {:induction false} CommitKeeps(s: State, lost: nat)
    requires Valid(s) && |s.levels| >= 2
    ensures |Committed(s).levels| == |s.levels| - 1 && Valid(Committed(s)) && (Short(s.levels, |s.levels|, lost) ==> Short(Committed(s).levels, |s.levels| - 1, lost))
  {
    hide Mids, DirtyList.Ascending, Overlay;
    var n := |s.levels|;
    var l := Joined(s.levels[n - 2], Top(s));
    var s' := Committed(s);
    JoinedDirty(s);
    assert ChainOk(s.levels, n - 1) && LevelOk(s.levels[n - 2], Dirty(s.levels, n - 1)) && LevelOk(Top(s), Dirty(s.levels, n));
    SamePrefix(s.levels, s'.levels, n - 2, lost);
    assert s'.levels[n - 2] == l;
    assert Dirty(s'.levels, n - 1) == Dirty(s'.levels, n - 2) + Mids(l.dirty);
    assert LevelOk(l, Dirty(s.levels, n));
    assert Short(s.levels, n, lost) ==> Short(s.levels, n - 1, lost);
  }

  /** Every step keeps the chain in order; mdb_ovpage_free loses one of the room, no other step any. */
  lemma {:induction false} StepKeeps(s: State, s': State, step: Step, lost: nat)
    requires Valid(s) && Next(s, s', step)
    ensures Valid(s')
    ensures Short(s.levels, |s.levels|, lost) ==> Short(s'.levels, |s'.levels|, if step.FreeRun? then lost + 1 else lost)
  {
    hide Valid, Short, DirtyList.Ascending, Inserted, Overlay, Touched, RunTouched, Mids, Dirty, Find, Has, Committed, Aborted;
    TopFacts(s, lost);
    match step
    case Begin => BeginKeeps(s, lost);
    case Modify(pgno, buf, body) => WriteKeeps(s, pgno, buf, body, lost);
    case Overwrite(pgno, buf, body) =>
      AccessIs(s, pgno, buf);
      WriteKeeps(s, pgno, buf, body, lost);
    case AllocFromHead(pg, buf, body) => AllocKeeps(s, s.pg.(head := s.pg.head - {pg}), pg, buf, body, Top(s).next, lost);
    case AllocNew(num, buf, body) => AllocKeeps(s, s.pg, Top(s).next, buf, body, Top(s).next + num, lost);
    case AllocLoose => SameDirtyKeeps(s, s.mem, Top(s).(loose := Top(s).loose[1..]), lost);
    case Fetch(ids, last) => FetchKeeps(s, ids, last);
    case Free(pg) => SameDirtyKeeps(s, s.mem, Top(s).(freed := Top(s).freed + [pg]), lost);
    case Loosen(pg, link) =>
      MidsFind(Top(s).dirty, pg);
      SameDirtyKeeps(s, s'.mem, Top(s).(loose := [pg] + Top(s).loose), lost);
    case FreeRun(x, num, ps) => FreeRunKeeps(s, x, num, ps, s', lost);
    case SetDb(db, record) => SameDirtyKeeps(s, s.mem, Top(s).(dbs := Top(s).dbs[db := record]), lost);
    case Commit => CommitKeeps(s, lost);
    case Abort => AbortKeeps(s, lost);
  }

  ghost predicate Run(states: seq<State>, steps: seq<Step>) {
    |states| == |steps| + 1 && forall i :: 0 <= i < |steps| ==> Next(states[i], states[i + 1], steps[i])
  }

  lemma StepOfRun(states: seq<State>, steps: seq<Step>, k: nat)
    requires Run(states, steps) && 0 < k <= |steps|
    ensures Next(states[k - 1], states[k], steps[k - 1])
  {
    assert Next(states[k - 1], states[k - 1 + 1], steps[k - 1]);
  }

  /** Every run keeps the lists sorted, without duplicates and within bounds, and the free pages out of them. */
  lemma {:induction false} RunKeeps(states: seq<State>, steps: seq<Step>, k: nat)
    requires Run(states, steps) && Valid(states[0]) && k <= |steps|
    ensures Valid(states[k])
  {
    hide Next, Valid;
    if k > 0 {
      RunKeeps(states, steps, k - 1);
      StepOfRun(states, steps, k);
      StepKeeps(states[k - 1], states[k], steps[k - 1], 0);
    }
  }

  // ---- When the merge of the dirty lists works -----------------------------------------------

  /** How many overflow runs were given back. */
  ghost function GivenBack(steps: seq<Step>): nat {
    if steps == [] then 0
    else GivenBack(steps[..|steps| - 1]) + if steps[|steps| - 1].FreeRun? then 1 else 0
  }

  lemma {:induction false} NoneGivenBack(steps: seq<Step>)
    ensures GivenBack(steps) == 0 <==> forall i :: 0 <= i < |steps| ==> !steps[i].FreeRun?
  {
    if steps != [] {
      var rest := steps[..|steps| - 1];
      NoneGivenBack(rest);
      assert forall i :: 0 <= i < |rest| ==> rest[i] == steps[i];
    }
  }

  lemma {:induction false} ShortIsExact(levels: seq<Level>, n: nat, lost: nat)
    requires n <= |levels| && Short(levels, n, lost)
    ensures n > 0 ==> levels[n - 1].room + |Dirty(levels, n)| + lost == UM_MAX
    ensures n > 0 ==> (Exact(levels, n) <==> lost == 0)
    ensures lost == 0 ==> Exact(levels, n)
  {
    if n > 0 { ShortIsExact(levels, n - 1, lost); }
  }

  lemma {:induction false} ExactIsShort(levels: seq<Level>, n: nat)
    requires n <= |levels| && Exact(levels, n)
    ensures Short(levels, n, 0)
  {
    if n > 0 { ExactIsShort(levels, n - 1); }
  }

  /** Throughout a run the room of every transaction is short by the overflow runs given back so far. */
  lemma {:induction false} RunIsShort(states: seq<State>, steps: seq<Step>, k: nat)
    requires Run(states, steps) && k <= |steps|
    requires Valid(states[0]) && Exact(states[0].levels, |states[0].levels|)
    ensures Valid(states[k]) && Short(states[k].levels, |states[k].levels|, GivenBack(steps[..k]))
  {
    hide Next, Valid, Exact, Short;
    if k > 0 {
      RunIsShort(states, steps, k - 1);
      StepOfRun(states, steps, k);
      StepKeeps(states[k - 1], states[k], steps[k - 1], GivenBack(steps[..k - 1]));
      assert steps[..k][..k - 1] == steps[..k - 1];
    } else {
      ExactIsShort(states[0].levels, |states[0].levels|);
    }
  }

  /**
   mt_dirty_room is as documented, in every transaction of the chain, if and only if no overflow
   run was given back since the run began.
   */
  lemma {:induction false} RoomIsExactly(states: seq<State>, steps: seq<Step>, k: nat)
    requires Run(states, steps) && k <= |steps|
    requires Valid(states[0]) && Exact(states[0].levels, |states[0].levels|)
    ensures Exact(states[k].levels, |states[k].levels|) <==> forall i :: 0 <= i < k ==> !steps[i].FreeRun?
  {
    hide Next, Exact, Short, ChainOk, HeadOk;
    RunIsShort(states, steps, k);
    ShortIsExact(states[k].levels, |states[k].levels|, GivenBack(steps[..k]));
    NoneGivenBack(steps[..k]);
    assert forall i :: 0 <= i < k ==> steps[..k][i] == steps[i];
  }

  /** With a single ancestor the indices meet exactly when the room is what a list may hold less the dirty pages. */
  lemma {:induction false} MeetsExactly(s: State)
    requires Valid(s) && |s.levels| >= 2
    ensures Meets(s) <==> |s.levels| > 2 || Top(s).room == UM_MAX - |Dirty(s.levels, |s.levels|)|
  {
    if |s.levels| == 2 {
      JoinedDirty(s);
      MidsSize(Joined(s.levels[0], Top(s)).dirty);
      assert Dirty(s.levels, 0) == {};
      assert Dirty(s.levels, 2) == Mids(Joined(s.levels[0], Top(s)).dirty);
    }
  }

  /**
   The merge into an outermost transaction works if and only if no overflow run was given back since
   that transaction began; deeper in the chain it always works.
   */
  lemma {:induction false} MergeWorksExactly(states: seq<State>, steps: seq<Step>, k: nat)
    requires Run(states, steps) && k <= |steps| && |states[k].levels| >= 2
    requires Valid(states[0]) && Exact(states[0].levels, |states[0].levels|)
    ensures Meets(states[k]) <==> |states[k].levels| > 2 || forall i :: 0 <= i < k ==> !steps[i].FreeRun?
  {
    hide Next, Exact, Short, ChainOk, HeadOk, Meets;
    RunIsShort(states, steps, k);
    ShortIsExact(states[k].levels, |states[k].levels|, GivenBack(steps[..k]));
    NoneGivenBack(steps[..k]);
    assert forall i :: 0 <= i < k ==> steps[..k][i] == steps[i];
    MeetsExactly(states[k]);
  }

  /** One page dirty in a lone transaction, with exact room. */
  ghost function OneDirty(): State {
    State(map[], map[7 := 0], PgState({}, 1), [Level([Id2(5, 7)], [], [], 10, UM_MAX - 1, map[], PgState({}, 0))])
  }

  ghost function NoneDirty(): State {
    State(map[], map[], PgState({5}, 1), [Level([], [], [], 10, UM_MAX - 1, map[], PgState({}, 0))])
  }

  /** After an overflow page was given back the room is one short, and the next nested commit miscounts. */
  lemma {:induction false} RoomIsLost()
    ensures Valid(OneDirty()) && Exact(OneDirty().levels, 1)
    ensures Next(OneDirty(), NoneDirty(), FreeRun(0, 1, {5}))
    ensures Next(NoneDirty(), Started(NoneDirty()), Begin) && !Meets(Started(NoneDirty()))
  {
    var l := OneDirty().levels[0];
    assert Mids(l.dirty) == {5} by { assert l.dirty[0].mid == 5; }
    assert Dirty(OneDirty().levels, 0) == {} && {} + {5} == {5};
    assert Dirty(OneDirty().levels, 1) == {5};
    assert ChainOk(OneDirty().levels, 0);
    assert Dropped(l.dirty, 0) == [];
    assert Without(OneDirty().mem, multiset{7}) == map[];
    assert Overlay([], []) == [];
  }
}
