/**
 The free pages and the table of databases in a chain of nested transactions: what a transaction
 freed belongs to its parent once it commits and to nobody once it aborts, however deep the chain,
 and no other step moves a page from one list to another.
 */
module NestedFree {
  import opened DirtyList
  import opened NestedTxn

  // ---- One step ------------------------------------------------------------------------------

  /** The pages freed by the first n transactions, with multiplicity. */
  ghost function FreedBy(levels: seq<Level>, n: nat): multiset<Pgno>
    requires n <= |levels|
  {
    if n == 0 then multiset{} else FreedBy(levels, n - 1) + multiset(levels[n - 1].freed)
  }

  /** The loose pages of the first n transactions. */
  ghost function LooseOf(levels: seq<Level>, n: nat): multiset<Pgno>
    requires n <= |levels|
  {
    if n == 0 then multiset{} else LooseOf(levels, n - 1) + multiset(levels[n - 1].loose)
  }

  lemma {:induction false} ListsSame(a: seq<Level>, b: seq<Level>, n: nat)
    requires n <= |a| && n <= |b| && forall j :: 0 <= j < n ==> a[j] == b[j]
    ensures FreedBy(a, n) == FreedBy(b, n) && LooseOf(a, n) == LooseOf(b, n)
  {
    if n > 0 { ListsSame(a, b, n - 1); }
  }

  /** All steps but Begin, Commit and Abort change only the innermost transaction. */
  lemma {:induction false} InnermostOnly(s: State, s': State, step: Step)
    requires Next(s, s', step) && !step.Begin? && !step.Commit? && !step.Abort?
    ensures |s'.levels| == |s.levels| > 0 && s'.levels[..|s.levels| - 1] == s.levels[..|s.levels| - 1]
    ensures Top(s').freed == if step.Free? then Top(s).freed + [step.pg] else Top(s).freed
    ensures if step.Loosen? then Top(s').loose == [step.pg] + Top(s).loose
            else if step.AllocLoose? then Top(s).loose != [] && Top(s').loose == Top(s).loose[1..]
            else Top(s').loose == Top(s).loose
    ensures Top(s').dbs == if step.SetDb? then Top(s).dbs[step.db := step.record] else Top(s).dbs
    ensures step.Free? || step.Loosen? || step.AllocLoose? || step.SetDb? ==> s'.pg == s.pg
  {
    hide Find, Dirty, Mids, Depth, Found, Inserted, Dropped, Without;
    match step
    case Modify(pgno, buf, body) => AccessIs(s, pgno, buf);
    case Overwrite(pgno, buf, body) => AccessIs(s, pgno, buf);
    case _ =>
  }

  /**
   A commit puts the lists of the innermost transaction together with its parent's and leaves the
   reclaimed pages, the next page and the databases as the innermost transaction had them; the
   transactions further out are as they were.
   */
  lemma {:induction false} CommitJoins(s: State, s': State)
    requires Next(s, s', Commit)
    ensures var n := |s.levels|; n >= 2 && |s'.levels| == n - 1 && s'.levels[..n - 2] == s.levels[..n - 2]
    ensures var n := |s.levels|; multiset(Top(s').freed) == multiset(s.levels[n - 2].freed) + multiset(Top(s).freed)
    ensures var n := |s.levels|; multiset(Top(s').loose) == multiset(s.levels[n - 2].loose) + multiset(Top(s).loose)
    ensures s'.pg == s.pg && s'.disk == s.disk
    ensures Top(s').next == Top(s).next && Top(s').room == Top(s).room && Top(s').dbs == Top(s).dbs
  {
    hide Meets, Without, Overlay;
  }

  /** A nested transaction begins with nothing freed and with its parent's databases. */
  lemma {:induction false} BeginIsFresh(s: State, s': State)
    requires Next(s, s', Begin)
    ensures |s.levels| > 0 && |s'.levels| == |s.levels| + 1 && s'.levels[..|s.levels|] == s.levels && s'.pg == s.pg
    ensures Top(s').dirty == [] && Top(s').freed == [] && Top(s').loose == []
    ensures Top(s').dbs == Top(s).dbs && Top(s').next == Top(s).next && Top(s').room == Top(s).room
  {
  }

  /** An abort forgets the innermost transaction. */
  lemma {:induction false} AbortForgets(s: State, s': State)
    requires Next(s, s', Abort)
    ensures |s.levels| >= 2 && s'.levels == s.levels[..|s.levels| - 1] && s'.pg == Top(s).saved
  {
    hide Without;
  }

  lemma SumsOfTop(s: State)
    requires |s.levels| > 0
    ensures FreedBy(s.levels, |s.levels|) == FreedBy(s.levels, |s.levels| - 1) + multiset(Top(s).freed)
    ensures LooseOf(s.levels, |s.levels|) == LooseOf(s.levels, |s.levels| - 1) + multiset(Top(s).loose)
  {
  }

  lemma {:induction false} CommitConserves(s: State, s': State)
    requires Next(s, s', Commit)
    ensures |s.levels| > 0
    ensures FreedBy(s'.levels, |s'.levels|) == FreedBy(s.levels, |s.levels|)
    ensures LooseOf(s'.levels, |s'.levels|) == LooseOf(s.levels, |s.levels|)
  {
    hide Next, FreedBy, LooseOf;
    var n := |s.levels|;
    CommitJoins(s, s');
    ListsSame(s.levels, s'.levels, n - 2);
    SumsOfTop(s);
    SumsOfTop(s.(levels := s.levels[..n - 1]));
    ListsSame(s.levels[..n - 1], s.levels, n - 1);
    ListsSame(s.levels[..n - 1], s.levels, n - 2);
    SumsOfTop(s');
  }

  lemma {:induction false} BeginConserves(s: State, s': State)
    requires Next(s, s', Begin)
    ensures |s.levels| > 0
    ensures FreedBy(s'.levels, |s'.levels|) == FreedBy(s.levels, |s.levels|)
    ensures LooseOf(s'.levels, |s'.levels|) == LooseOf(s.levels, |s.levels|)
  {
    hide Next, FreedBy, LooseOf;
    BeginIsFresh(s, s');
    ListsSame(s.levels, s'.levels, |s.levels|);
    SumsOfTop(s');
  }

  lemma {:induction false} AbortConserves(s: State, s': State)
    requires Next(s, s', Abort)
    ensures |s.levels| > 0
    ensures FreedBy(s.levels, |s.levels|) == FreedBy(s'.levels, |s'.levels|) + multiset(Top(s).freed)
    ensures LooseOf(s.levels, |s.levels|) == LooseOf(s'.levels, |s'.levels|) + multiset(Top(s).loose)
  {
    hide Next, FreedBy, LooseOf;
    AbortForgets(s, s');
    ListsSame(s.levels, s'.levels, |s.levels| - 1);
    SumsOfTop(s);
  }

  lemma {:induction false} InnermostConserves(s: State, s': State, step: Step)
    requires Next(s, s', step) && !step.Begin? && !step.Commit? && !step.Abort?
    ensures |s.levels| > 0 && |s'.levels| > 0
    ensures var was, now := FreedBy(s.levels, |s.levels|), FreedBy(s'.levels, |s'.levels|);
            now == if step.Free? then was + multiset{step.pg} else was
    ensures var was, now := LooseOf(s.levels, |s.levels|), LooseOf(s'.levels, |s'.levels|);
            if step.Loosen? then now == was + multiset{step.pg}
            else if step.AllocLoose? then Top(s).loose != [] && was == now + multiset{Top(s).loose[0]}
            else now == was
  {
    hide Next, FreedBy, LooseOf;
    InnermostOnly(s, s', step);
    ListsSame(s.levels, s'.levels, |s.levels| - 1);
    SumsOfTop(s);
    SumsOfTop(s');
    if step.AllocLoose? { assert Top(s).loose == [Top(s).loose[0]] + Top(s).loose[1..]; }
  }

  /**
   The pages on the lists of the chain are conserved: a Free or Loosen step adds its page, taking a
   loose page takes one, an abort takes what the aborted transaction had, and nothing else changes.
   */
  lemma {:induction false} StepConserves(s: State, s': State, step: Step)
    requires Next(s, s', step)
    ensures |s.levels| > 0
    ensures var was, now := FreedBy(s.levels, |s.levels|), FreedBy(s'.levels, |s'.levels|);
            if step.Free? then now == was + multiset{step.pg}
            else if step.Abort? then was == now + multiset(Top(s).freed) else now == was
    ensures var was, now := LooseOf(s.levels, |s.levels|), LooseOf(s'.levels, |s'.levels|);
            if step.Loosen? then now == was + multiset{step.pg}
            else if step.AllocLoose? then Top(s).loose != [] && was == now + multiset{Top(s).loose[0]}
            else if step.Abort? then was == now + multiset(Top(s).loose) else now == was
  {
    hide Next, FreedBy, LooseOf;
    if step.Begin? {
      BeginConserves(s, s');
    } else if step.Commit? {
      CommitConserves(s, s');
    } else if step.Abort? {
      AbortConserves(s, s');
    } else {
      InnermostConserves(s, s', step);
    }
  }

  /** What a step does to the list of the l-th transaction. */
  lemma {:induction false} ListNext(s: State, s': State, step: Step, l: nat)
    requires Next(s, s', step) && 0 < l <= |s'.levels|
    ensures var n, now := |s.levels|, multiset(s'.levels[l - 1].freed);
            && (step.Begin? && l == n + 1 ==> now == multiset{})
            && (step.Commit? && l == n - 1 ==> now == multiset(s.levels[l - 1].freed) + multiset(s.levels[n - 1].freed))
            && (step.Free? && l == n ==> now == multiset(s.levels[l - 1].freed) + multiset{step.pg})
            && (!(step.Begin? && l == n + 1) && !(step.Commit? && l == n - 1) && !(step.Free? && l == n) ==>
                  l <= n && now == multiset(s.levels[l - 1].freed))
  {
    hide Next;
    var n := |s.levels|;
    if step.Begin? {
      BeginIsFresh(s, s');
      if l <= n { assert s'.levels[..n][l - 1] == s.levels[l - 1]; }
    } else if step.Commit? {
      CommitJoins(s, s');
      if l < n - 1 { assert s'.levels[..n - 2][l - 1] == s.levels[..n - 2][l - 1]; }
    } else if step.Abort? {
      AbortForgets(s, s');
    } else {
      InnermostOnly(s, s', step);
      if l < n { assert s'.levels[..n - 1][l - 1] == s.levels[..n - 1][l - 1]; }
    }
  }

  /**
   What happens to the reclaimed pages: one that is taken is dirty then, an overflow run given back
   puts all its pages there, an abort puts back what there was, and a new page is past all others.
   */
  lemma {:induction false} HeadChanges(s: State, s': State, step: Step)
    requires Valid(s) && Next(s, s', step)
    ensures match step
            case AllocFromHead(pg, _, _) => pg in s.pg.head && s'.pg.head == s.pg.head - {pg} && Find(Top(s').dirty, pg).Some?
            case Fetch(ids, last) => s'.pg == PgState(s.pg.head + ids, last)
            case FreeRun(x, num, ps) =>
              && x < |Top(s).dirty| && s'.pg.head == s.pg.head + ps && s'.pg.pglast == s.pg.pglast
              && forall p :: p in ps <==> Top(s).dirty[x].mid <= p < Top(s).dirty[x].mid + num
            case Abort => s'.pg == Top(s).saved
            case AllocNew(num, _, _) =>
              s'.pg == s.pg && Find(Top(s').dirty, Top(s).next).Some? && Top(s').next == Top(s).next + num > Top(s).next
            case _ => s'.pg == s.pg
  {
    hide Valid, Find, Mids, Depth, Found, Inserted, Dropped, Without, Overlay, Meets;
    TopFacts(s, 0);
    match step
    case Modify(pgno, buf, body) => AccessIs(s, pgno, buf);
    case Overwrite(pgno, buf, body) => AccessIs(s, pgno, buf);
    case AllocFromHead(pg, buf, body) => Entered(s, pg, buf);
    case AllocNew(num, buf, body) => Entered(s, Top(s).next, buf);
    case _ =>
  }

  lemma {:induction false} Entered(s: State, pg: Pgno, buf: int)
    requires Valid(s) && pg !in Dirty(s.levels, |s.levels|) && |s.levels| > 0 && Top(s).room > 0
    ensures Find(Inserted(Top(s).dirty, Id2(pg, buf)), pg).Some?
  {
    hide Valid, Find, Inserted;
    TopFacts(s, 0);
    MidsFind(Top(s).dirty, pg);
    FindHas(Top(s).dirty, pg);
    FindInserted(Top(s).dirty, Id2(pg, buf), pg);
  }

  // ---- Every run -----------------------------------------------------------------------------

  /**
   Which transaction has what step i freed by the time of state k, counted from the outermost one,
   which is 1: a commit hands it to the parent. It is 0 when nobody has it any more, after an abort.
   */
  ghost function Holder(states: seq<State>, steps: seq<Step>, i: nat, k: nat): nat
    requires Run(states, steps) && i < k <= |steps|
    decreases k
  {
    if k == i + 1 then |states[i].levels|
    else
      var h := Holder(states, steps, i, k - 1);
      if h < |states[k - 1].levels| then h
      else if steps[k - 1].Commit? then |states[k - 1].levels| - 1
      else if steps[k - 1].Abort? then 0
      else h
  }

  /** The pages freed by the first i steps that transaction l has in state k. */
  ghost function Freed(states: seq<State>, steps: seq<Step>, k: nat, i: nat, l: nat): multiset<Pgno>
    requires Run(states, steps) && i <= k <= |steps|
  {
    if i == 0 then multiset{}
    else
      Freed(states, steps, k, i - 1, l) +
      if steps[i - 1].Free? && Holder(states, steps, i - 1, k) == l then multiset{steps[i - 1].pg} else multiset{}
  }

  lemma {:induction false} Levels(s: State, s': State, step: Step)
    requires Next(s, s', step)
    ensures |s.levels| > 0
    ensures |s'.levels| == if step.Begin? then |s.levels| + 1 else if step.Commit? || step.Abort? then |s.levels| - 1 else |s.levels|
    ensures |s'.levels| > 0
  {
    hide Next;
    if step.Begin? { BeginIsFresh(s, s'); }
    else if step.Commit? { CommitJoins(s, s'); }
    else if step.Abort? { AbortForgets(s, s'); }
    else { InnermostOnly(s, s', step); }
  }

  lemma {:induction false} HolderExists(states: seq<State>, steps: seq<Step>, i: nat, k: nat)
    requires Run(states, steps) && i < k <= |steps| && steps[i].Free?
    ensures Holder(states, steps, i, k) <= |states[k].levels|
    decreases k
  {
    hide Next;
    if k > i + 1 { HolderExists(states, steps, i, k - 1); }
    StepOfRun(states, steps, k);
    Levels(states[k - 1], states[k], steps[k - 1]);
  }

  lemma FreedLast(states: seq<State>, steps: seq<Step>, k: nat, i: nat, l: nat)
    requires Run(states, steps) && 0 < i <= k <= |steps|
    ensures Freed(states, steps, k, i, l) == Freed(states, steps, k, i - 1, l) +
            if steps[i - 1].Free? && Holder(states, steps, i - 1, k) == l then multiset{steps[i - 1].pg} else multiset{}
  {
    hide Holder;
  }

  /** How a step passes on what was freed. */
  lemma {:induction false} HolderNext(states: seq<State>, steps: seq<Step>, i: nat, k: nat)
    requires Run(states, steps) && i < k < |steps| && steps[i].Free?
    ensures var h, h', n := Holder(states, steps, i, k), Holder(states, steps, i, k + 1), |states[k].levels|;
            && h <= n && h' <= |states[k + 1].levels|
            && h' == if steps[k].Commit? && h == n then n - 1 else if steps[k].Abort? && h == n then 0 else h
  {
    hide Next;
    HolderExists(states, steps, i, k);
    HolderExists(states, steps, i, k + 1);
    StepOfRun(states, steps, k + 1);
    Levels(states[k], states[k + 1], steps[k]);
  }

  /** What another step changes about who has the pages freed before it. */
  lemma {:induction false} FreedNext(states: seq<State>, steps: seq<Step>, k: nat, i: nat, l: nat)
    requires Run(states, steps) && i <= k < |steps| && 0 < l <= |states[k + 1].levels|
    ensures var n := |states[k].levels|;
            Freed(states, steps, k + 1, i, l) ==
            if steps[k].Begin? && l == n + 1 then multiset{}
            else if steps[k].Commit? && l == n - 1 then Freed(states, steps, k, i, l) + Freed(states, steps, k, i, n)
            else Freed(states, steps, k, i, l)
    decreases i
  {
    hide Next, Holder, Freed;
    StepOfRun(states, steps, k + 1);
    Levels(states[k], states[k + 1], steps[k]);
    if i == 0 {
      NoneFreed(states, steps, k, l);
    } else {
      FreedNext(states, steps, k, i - 1, l);
      if steps[i - 1].Free? { HolderNext(states, steps, i - 1, k); }
      FreedLast(states, steps, k + 1, i, l);
      FreedLast(states, steps, k, i, l);
      FreedLast(states, steps, k, i, |states[k].levels|);
    }
  }

  lemma NoneFreed(states: seq<State>, steps: seq<Step>, k: nat, l: nat)
    requires Run(states, steps) && k < |steps|
    ensures Freed(states, steps, k + 1, 0, l) == Freed(states, steps, k, 0, l) == Freed(states, steps, k, 0, |states[k].levels|) == multiset{}
  {
  }

  /** A chain with one transaction that has freed nothing yet. */
  ghost predicate Starts(s: State) {
    |s.levels| == 1 && s.levels[0].freed == []
  }

  /**
   In every run the pages a transaction has on its list are exactly those freed in it and in the
   transactions nested in it, at any depth, that committed all the way up to it; an outermost
   transaction in the end has those of every chain of commits, and none of an aborted one.
   */
  lemma {:induction false} FreedIsExactly(states: seq<State>, steps: seq<Step>, k: nat, l: nat)
    requires Run(states, steps) && Starts(states[0]) && k <= |steps| && 0 < l <= |states[k].levels|
    ensures multiset(states[k].levels[l - 1].freed) == Freed(states, steps, k, k, l)
    decreases k
  {
    hide Next, Holder, Freed;
    if k == 0 {
      FreedAtStart(states, steps, l);
    } else {
      var s, s', step, n := states[k - 1], states[k], steps[k - 1], |states[k - 1].levels|;
      StepOfRun(states, steps, k);
      Levels(s, s', step);
      ListNext(s, s', step, l);
      FreedNext(states, steps, k - 1, k - 1, l);
      FreedLast(states, steps, k, k, l);
      HolderFirst(states, steps, k - 1);
      if l <= n { FreedIsExactly(states, steps, k - 1, l); }
      if step.Commit? { FreedIsExactly(states, steps, k - 1, n); }
    }
  }

  lemma FreedAtStart(states: seq<State>, steps: seq<Step>, l: nat)
    requires Run(states, steps)
    ensures Freed(states, steps, 0, 0, l) == multiset{}
  {
  }

  lemma HolderFirst(states: seq<State>, steps: seq<Step>, i: nat)
    requires Run(states, steps) && i < |steps|
    ensures Holder(states, steps, i, i + 1) == |states[i].levels|
  {
  }

  lemma {:induction false} FreedHas(states: seq<State>, steps: seq<Step>, k: nat, j: nat, i: nat, l: nat)
    requires Run(states, steps) && i < j <= k <= |steps| && steps[i].Free? && Holder(states, steps, i, k) == l
    ensures steps[i].pg in Freed(states, steps, k, j, l)
    decreases j
  {
    if j > i + 1 { FreedHas(states, steps, k, j - 1, i, l); }
  }

  /** While no transaction is aborted, whoever freed a page, there is somebody who has it. */
  lemma {:induction false} HolderStays(states: seq<State>, steps: seq<Step>, i: nat, k: nat)
    requires Run(states, steps) && i < k <= |steps| && steps[i].Free?
    requires forall j :: i < j < k ==> !steps[j].Abort?
    ensures 0 < Holder(states, steps, i, k) <= |states[k].levels|
    decreases k
  {
    hide Next;
    StepOfRun(states, steps, k);
    Levels(states[k - 1], states[k], steps[k - 1]);
    if k > i + 1 { HolderStays(states, steps, i, k - 1); }
  }

  /** A page freed at any depth is on the outermost transaction's list once all that is nested in it committed. */
  lemma {:induction false} CommittedFreesArrive(states: seq<State>, steps: seq<Step>, i: nat, k: nat)
    requires Run(states, steps) && Starts(states[0]) && i < k <= |steps| && steps[i].Free?
    requires |states[k].levels| == 1 && forall j :: i < j < k ==> !steps[j].Abort?
    ensures steps[i].pg in states[k].levels[0].freed
  {
    hide Next;
    HolderStays(states, steps, i, k);
    FreedHas(states, steps, k, k, i, 1);
    FreedIsExactly(states, steps, k, 1);
  }

  /** The same for loose pages, as long as no loose page is taken. */
  lemma {:induction false} CommittedLooseArrive(states: seq<State>, steps: seq<Step>, i: nat, k: nat)
    requires Run(states, steps) && i < k <= |steps| && steps[i].Loosen?
    requires |states[k].levels| == 1 && forall j :: i < j < k ==> !steps[j].Abort? && !steps[j].AllocLoose?
    ensures steps[i].pg in states[k].levels[0].loose
  {
    hide Next;
    LooseStays(states, steps, i, k);
    assert LooseOf(states[k].levels, 1) == LooseOf(states[k].levels, 0) + multiset(states[k].levels[0].loose);
  }

  lemma {:induction false} LooseStays(states: seq<State>, steps: seq<Step>, i: nat, k: nat)
    requires Run(states, steps) && i < k <= |steps| && steps[i].Loosen?
    requires forall j :: i < j < k ==> !steps[j].Abort? && !steps[j].AllocLoose?
    ensures steps[i].pg in LooseOf(states[k].levels, |states[k].levels|)
    decreases k
  {
    hide Next, LooseOf, FreedBy;
    StepOfRun(states, steps, k);
    StepConserves(states[k - 1], states[k], steps[k - 1]);
    if k > i + 1 { LooseStays(states, steps, i, k - 1); }
  }
}
