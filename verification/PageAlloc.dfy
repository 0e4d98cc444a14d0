/**
 mdb_page_alloc (mdb.c:1958-2127) and mdb_find_oldest (mdb.c:1904-1921): loose pages first, then
 a run in the reclaimed list, which is extended by free-database records older than every
 reader, then new pages at the end of the file.
 */
module PageAlloc {
  import opened IdList
  import opened IdBlock
  import opened PageRuns
  import opened RecordKeys
  import opened Mvcc

  /** The loop over the reader table, from the last slot to the first. */
  method FindOldestReader(slots: seq<Slot>, id: TxnId) returns (oldest: TxnId)
    requires 0 < id <= NO_TXN
    ensures IsOldest(slots, id, oldest)
  {
    oldest := id - 1;
    var i := |slots|;
    while i > 0
      invariant 0 <= i <= |slots| && oldest < id
      invariant forall j :: i <= j < |slots| && ActiveReader(slots[j]) ==> oldest <= slots[j].txnid
      invariant oldest == id - 1 || exists j :: i <= j < |slots| && ActiveReader(slots[j]) && oldest == slots[j].txnid
    {
      i := i - 1;
      if slots[i].pid != 0 {
        var mr := slots[i].txnid;
        if oldest > mr { oldest := mr; }
      }
    }
  }

  // ---- Free-database records -----------------------------------------------------------------

  /** The pages in the records with keys lo + 1 .. hi. */
  ghost function Fetched(records: map<TxnId, seq<Pgno>>, lo: TxnId, hi: TxnId): multiset<Pgno>
    decreases hi
  {
    if hi <= lo then multiset{}
    else Fetched(records, lo, hi - 1) + if hi in records then multiset(records[hi]) else multiset{}
  }

  lemma {:induction false} FetchedSplit(records: map<TxnId, seq<Pgno>>, lo: TxnId, mid: TxnId, hi: TxnId)
    requires lo <= mid <= hi
    ensures Fetched(records, lo, hi) == Fetched(records, lo, mid) + Fetched(records, mid, hi)
    decreases hi
  {
    if mid < hi { FetchedSplit(records, lo, mid, hi - 1); }
  }

  lemma {:induction false} FetchedNext(records: map<TxnId, seq<Pgno>>, lo: TxnId, key: TxnId)
    requires lo < key && key in records && forall k :: lo < k < key ==> k !in records
    ensures Fetched(records, lo, key) == multiset(records[key])
  {
    FetchedNone(records, lo, key - 1);
  }

  lemma {:induction false} FetchedNone(records: map<TxnId, seq<Pgno>>, lo: TxnId, hi: TxnId)
    requires forall k :: lo < k <= hi ==> k !in records
    ensures Fetched(records, lo, hi) == multiset{}
    decreases hi
  {
    if lo < hi { FetchedNone(records, lo, hi - 1); }
  }

  /** The keys of the records after lo up to hi. */
  ghost function Keys(records: map<TxnId, seq<Pgno>>, lo: TxnId, hi: TxnId): set<TxnId> {
    set k | k in records && lo < k <= hi
  }

  /** The records after lo that are older than the last committed transaction and every active reader. */
  ghost function Usable(records: map<TxnId, seq<Pgno>>, slots: seq<Slot>, txnid: TxnId, lo: TxnId): set<TxnId> {
    set k | k in records && lo < k && k + 1 < txnid && forall i :: 0 <= i < |slots| && ActiveReader(slots[i]) ==> k < slots[i].txnid
  }

  /**
   When `have` pages were at hand before the records after lo were read up to hi, at most `used`
   of them were read once there were `num` pages.
   */
  ghost predicate WithinBudget(records: map<TxnId, seq<Pgno>>, have: nat, lo: TxnId, hi: TxnId, num: nat, used: int) {
    forall m: TxnId :: lo <= m <= hi && have + |Fetched(records, lo, m)| >= num ==> |Keys(records, m, hi)| <= used
  }

  lemma {:induction false} KeysNext(records: map<TxnId, seq<Pgno>>, lo: TxnId, hi: TxnId, key: TxnId)
    requires lo <= hi < key && key in records && forall k :: hi < k < key ==> k !in records
    ensures |Keys(records, lo, key)| == |Keys(records, lo, hi)| + 1
  {
    assert Keys(records, lo, key) == Keys(records, lo, hi) + {key};
  }

  lemma {:induction false} BudgetNext(records: map<TxnId, seq<Pgno>>, have: nat, lo: TxnId, hi: TxnId, key: TxnId, num: nat, used: int)
    requires WithinBudget(records, have, lo, hi, num, used) && used >= 0
    requires lo <= hi < key && key in records && forall k :: hi < k < key ==> k !in records
    ensures WithinBudget(records, have, lo, key, num, if have + |Fetched(records, lo, hi)| >= num then used + 1 else used)
  {
    hide Fetched;
    forall m: TxnId | lo <= m <= key && have + |Fetched(records, lo, m)| >= num
      ensures |Keys(records, m, key)| <= if have + |Fetched(records, lo, hi)| >= num then used + 1 else used
    {
      if m <= hi {
        FetchedSplit(records, lo, m, hi);
        KeysNext(records, m, hi, key);
      } else if m < key {
        FetchedSplit(records, lo, hi, m);
        FetchedNone(records, hi, m);
        assert Keys(records, m, key) == {key};
      } else {
        assert Keys(records, m, key) == {};
      }
    }
  }

  lemma {:induction false} BudgetStart(records: map<TxnId, seq<Pgno>>, have: nat, lo: TxnId, num: nat)
    ensures WithinBudget(records, have, lo, lo, num, 0) && Keys(records, lo, lo) == {}
  {
    forall m: TxnId | lo <= m <= lo ensures |Keys(records, m, lo)| == 0 {
      assert Keys(records, m, lo) == {};
    }
  }

  lemma {:induction false} FetchedHas(records: map<TxnId, seq<Pgno>>, lo: TxnId, hi: TxnId, k: TxnId, p: Pgno)
    requires k in records && lo < k <= hi && p in records[k]
    ensures p in Fetched(records, lo, hi)
    decreases hi
  {
    if k < hi { FetchedHas(records, lo, hi - 1, k, p); }
  }

  /** No page is free twice. */
  ghost predicate Distinct(m: multiset<Pgno>) {
    forall p :: m[p] <= 1
  }

  lemma TwiceInList(s: seq<nat>, x: nat, y: nat)
    requires x < y < |s|
    ensures s[x] == s[y] ==> multiset(s)[s[x]] >= 2
  {
    var a, b := s[..y], s[y..];
    assert s == a + b && a[x] == s[x] && b[0] == s[y];
    assert s[x] in a && s[y] in b;
    assert multiset(s) == multiset(a) + multiset(b);
  }

  lemma {:induction false} DistinctDescends(s: seq<nat>, rest: multiset<Pgno>)
    requires Descending(s) && Distinct(multiset(s) + rest)
    ensures StrictlyDescending(s)
  {
    forall x, y | 0 <= x < y < |s| ensures s[x] > s[y] {
      TwiceInList(s, x, y);
      assert (multiset(s) + rest)[s[x]] <= 1;
    }
  }

  /** Taking a run out of the list takes exactly its pages. */
  lemma WithoutTakes(s: seq<nat>, i: nat, num: nat)
    requires StrictlyDescending(s) && RunEndsAt(s, i, num)
    ensures multiset(Without(s, i, num)) + multiset(DescRange(s[i - 1], num)) == multiset(s)
    ensures Descending(Without(s, i, num))
  {
    WithoutDescends(s, i, num);
    RunIds(s, i, num);
    hide StrictlyDescending, Descending, RunEndsAt, DescRange;
    assert s == s[..i - num] + s[i - num..i] + s[i..];
  }

  lemma WithoutDescends(s: seq<nat>, i: nat, num: nat)
    requires StrictlyDescending(s) && num <= i <= |s|
    ensures Descending(Without(s, i, num))
  {
    var t := Without(s, i, num);
    assert forall x :: 0 <= x < |t| ==> t[x] == s[if x < i - num then x else x + num];
  }

  /** mdb_midl_need and mdb_midl_xmerge: make room for a record's list and merge it in. */
  method MergeRecord(head: Idl, rec: seq<nat>)
    requires head.Valid() && Descending(head.Contents()) && Descending(rec) && AllIds(rec)
    requires |head.Contents()| + |rec| < 0xC000_0000
    modifies head, head.ids
    ensures head.Valid() && Descending(head.Contents())
    ensures multiset(head.Contents()) == old(multiset(head.Contents())) + multiset(rec)
    ensures head.ids == old(head.ids) || fresh(head.ids)
  {
    hide Merge, Descending;
    ghost var before := head.Contents();
    var idl := new nat[|rec| + 1];
    WriteList(idl, 0, rec);
    head.Need(|rec|);
    XMerge(head.ids, idl, 0);
    MergeIsUnion(before, rec);
    MergeIsDescending(before, rec);
  }

  lemma Sizes(a: seq<nat>, b: seq<nat>, rest: multiset<nat>)
    ensures |a| + |b| <= |multiset(a) + (multiset(b) + rest)|
  {
  }

  /** The records with keys lo + 1 .. hi are older than every active reader. */
  ghost predicate OlderThanReaders(records: map<TxnId, seq<Pgno>>, slots: seq<Slot>, lo: TxnId, hi: TxnId) {
    forall k, j :: k in records && lo < k <= hi && 0 <= j < |slots| && ActiveReader(slots[j]) ==> k < slots[j].txnid
  }

  /** The pages p .. p + num - 1 are all in the list or in the records named. */
  ghost predicate RunAtHand(s: seq<Pgno>, records: map<TxnId, seq<Pgno>>, keys: set<TxnId>, p: Pgno, num: nat) {
    forall q: Pgno :: p <= q < p + num ==> q in s || exists k :: k in keys && k in records && q in records[k]
  }

  /** With every usable record read, no run was overlooked. */
  lemma NothingMissed(before: seq<Pgno>, now: seq<Pgno>, records: map<TxnId, seq<Pgno>>, keys: set<TxnId>, lo: TxnId, hi: TxnId, num: nat)
    requires multiset(now) == multiset(before) + Fetched(records, lo, hi)
    requires (forall k :: k in keys ==> lo < k <= hi && k in records) && forall p: Pgno :: !AllFree(now, p, num)
    ensures forall p: Pgno :: !RunAtHand(before, records, keys, p, num)
  {
    hide Fetched;
    forall p: Pgno ensures !RunAtHand(before, records, keys, p, num) {
      assert !AllFree(now, p, num);
      var q: Pgno :| p <= q < p + num && q !in now;
      assert q !in multiset(now);
      assert q in before ==> q in multiset(before);
      forall k | k in keys && q in records[k] ensures false {
        FetchedHas(records, lo, hi, k, q);
      }
    }
  }

  /** What the oldest reader bound leaves unread is not usable. */
  lemma UsableAreRead(records: map<TxnId, seq<Pgno>>, slots: seq<Slot>, txnid: TxnId, lo: TxnId, hi: TxnId, oldest: TxnId)
    requires IsOldest(slots, txnid, oldest) && forall k :: k in records && hi < k ==> oldest <= k
    ensures forall k :: k in Usable(records, slots, txnid, lo) ==> lo < k <= hi
  {
  }

  /** All that was read was usable. */
  lemma ReadAreUsable(records: map<TxnId, seq<Pgno>>, slots: seq<Slot>, txnid: TxnId, lo: TxnId, hi: TxnId)
    requires OlderThanReaders(records, slots, lo, hi) && (lo < hi ==> hi + 1 < txnid)
    ensures |Keys(records, lo, hi)| <= |Usable(records, slots, txnid, lo)|
  {
    var a, b := Keys(records, lo, hi), Usable(records, slots, txnid, lo);
    assert a <= b;
    assert b == a + (b - a);
  }

  lemma NoneRead(records: map<TxnId, seq<Pgno>>, slots: seq<Slot>, lo: TxnId)
    ensures OlderThanReaders(records, slots, lo, lo)
  {
  }

  lemma OlderNext(records: map<TxnId, seq<Pgno>>, slots: seq<Slot>, lo: TxnId, hi: TxnId, key: TxnId, oldest: TxnId)
    requires OlderThanReaders(records, slots, lo, hi) && (forall k :: hi < k < key ==> k !in records) && key < oldest
    requires forall i :: 0 <= i < |slots| && ActiveReader(slots[i]) ==> oldest <= slots[i].txnid
    ensures OlderThanReaders(records, slots, lo, key)
  {
  }

  lemma BudgetGrows(records: map<TxnId, seq<Pgno>>, have: nat, lo: TxnId, hi: TxnId, num: nat, used: int, used': int)
    requires WithinBudget(records, have, lo, hi, num, used) && used <= used'
    ensures WithinBudget(records, have, lo, hi, num, used')
  {
  }

  datatype Status = Success | TxnFull | MapFull

  class Allocator {
    const txnid: TxnId
    const maxpg: Pgno
    /** The free database as the transaction sees it, and the reader table. */
    const records: map<TxnId, seq<Pgno>>
    const slots: seq<Slot>
    /** me_pghead, empty while it is NULL. */
    const head: Idl
    var pglast: TxnId
    var pgoldest: TxnId
    var next: Pgno
    var loose: seq<Pgno>
    var dirty: set<Pgno>
    var dirtyRoom: nat
    var error: bool

    /** A write transaction that has allocated nothing yet (mdb_txn_renew0). */
    constructor (txnid: TxnId, maxpg: Pgno, records: map<TxnId, seq<Pgno>>, slots: seq<Slot>, next: Pgno,
                 pgoldest: TxnId, dirtyRoom: nat)
      requires 0 < txnid <= NO_TXN && pgoldest < txnid
      requires forall i :: 0 <= i < |slots| && ActiveReader(slots[i]) ==> pgoldest <= slots[i].txnid
      requires forall k :: k in records ==> Descending(records[k]) && AllIds(records[k])
      requires Distinct(Fetched(records, 0, txnid)) && |Fetched(records, 0, txnid)| < 0xC000_0000
      ensures Valid() && head.Contents() == [] && loose == [] && dirty == {} && pglast == 0 && !error
      ensures this.txnid == txnid && this.maxpg == maxpg && this.records == records && this.slots == slots
      ensures this.next == next && this.dirtyRoom == dirtyRoom && fresh(head) && fresh(head.ids)
    {
      this.txnid, this.maxpg, this.records, this.slots := txnid, maxpg, records, slots;
      this.next, this.pgoldest, this.dirtyRoom := next, pgoldest, dirtyRoom;
      head := new Idl(0);
      pglast, loose, dirty, error := 0, [], {}, false;
      new;
      assert multiset(head.Contents()) == multiset{};
    }

    ghost function Unread(): multiset<Pgno>
      reads this
    {
      Fetched(records, pglast, txnid)
    }

    /** me_pgoldest is a lower bound on the readers, and no page is free twice. */
    ghost predicate Valid()
      reads this, head, head.ids
    {
      && 0 < txnid <= NO_TXN && pglast < txnid && pgoldest < txnid
      && (forall i :: 0 <= i < |slots| && ActiveReader(slots[i]) ==> pgoldest <= slots[i].txnid)
      && head.Valid() && Descending(head.Contents())
      && (forall k :: k in records ==> Descending(records[k]) && AllIds(records[k]))
      && Distinct(multiset(head.Contents()) + Unread())
      && |multiset(head.Contents()) + Unread()| < 0xC000_0000
    }

    /** The free pages are what they were: reclaimed, or in records that were not read. */
    twostate predicate Kept()
      reads this, head, head.ids
      requires old(head.Valid()) && head.Valid()
    {
      && multiset(head.Contents()) + Unread() == old(multiset(head.Contents()) + Unread())
      && old(pglast) <= pglast
    }

    /** The reclaimed list has what it had and the pages of the records read. */
    lemma ListIs(before: seq<Pgno>, lo: TxnId)
      requires Valid() && lo <= pglast
      requires multiset(head.Contents()) + Unread() == multiset(before) + Fetched(records, lo, txnid)
      ensures multiset(head.Contents()) == multiset(before) + Fetched(records, lo, pglast)
      ensures |head.Contents()| == |before| + |Fetched(records, lo, pglast)|
    {
      hide Descending, AllIds, Fetched, Distinct;
      FetchedSplit(records, lo, pglast, txnid);
      var a, b, c := multiset(head.Contents()), multiset(before) + Fetched(records, lo, pglast), Unread();
      assert a + c == b + c;
      assert forall p :: a[p] == (a + c)[p] - c[p] && b[p] == (b + c)[p] - c[p];
      assert a == b;
      assert |multiset(head.Contents())| == |head.Contents()| && |multiset(before)| == |before|;
    }

    /** Merge the record with the next key into the reclaimed list. */
    method Fetch(key: TxnId)
      requires Valid() && pglast < key < txnid && key in records && forall k :: pglast < k < key ==> k !in records
      modifies this`pglast, head, head.ids
      ensures Valid() && Kept() && pglast == key
      ensures head.ids == old(head.ids) || fresh(head.ids)
    {
      hide Descending, AllIds, Fetched, Distinct;
      FetchedSplit(records, pglast, key, txnid);
      FetchedNext(records, pglast, key);
      ghost var before, unread := head.Contents(), Fetched(records, key, txnid);
      Sizes(before, records[key], unread);
      MergeRecord(head, records[key]);
      assert multiset(head.Contents()) + unread == multiset(before) + (multiset(records[key]) + unread);
      pglast := key;
    }

    /** Every record that is left is as recent as some reader or the last committed transaction. */
    ghost predicate Exhausted()
      reads this
    {
      IsOldest(slots, txnid, pgoldest) && forall k :: k in records && pglast < k ==> pgoldest <= k
    }

    /** Refresh the cached bound if the record with key `last` looks too recent; true if it is. */
    method TooRecent(last: TxnId, found: bool) returns (recent: bool, found': bool)
      requires Valid() && (found ==> IsOldest(slots, txnid, pgoldest))
      modifies this`pgoldest
      ensures Valid() && recent == (pgoldest <= last) && (found' ==> IsOldest(slots, txnid, pgoldest))
      ensures recent ==> found'
      ensures found ==> found'
      ensures found || old(pgoldest) > last ==> pgoldest == old(pgoldest) && found' == found
    {
      hide Descending, AllIds, Fetched, Distinct;
      recent, found' := false, found;
      if pgoldest <= last {
        if !found {
          pgoldest := FindOldestReader(slots, txnid);
          found' := true;
        }
        recent := pgoldest <= last;
      }
    }

    /** Read the next record, if there is one older than every reader. */
    method ReadNext(found: bool, ghost before: seq<Pgno>, ghost lo: TxnId, ghost num: nat, ghost used: int)
      returns (read: bool, found': bool)
      requires Valid() && (found ==> IsOldest(slots, txnid, pgoldest)) && lo <= pglast && used >= 0
      requires multiset(head.Contents()) + Unread() == multiset(before) + Fetched(records, lo, txnid)
      requires OlderThanReaders(records, slots, lo, pglast) && WithinBudget(records, |before|, lo, pglast, num, used)
      modifies this`pglast, this`pgoldest, head, head.ids
      ensures Valid() && Kept() && (found' ==> IsOldest(slots, txnid, pgoldest))
      ensures head.ids == old(head.ids) || fresh(head.ids)
      ensures OlderThanReaders(records, slots, lo, pglast)
      ensures if read then pglast > old(pglast) && |Keys(records, lo, pglast)| == |Keys(records, lo, old(pglast))| + 1
                   && pglast + 1 < txnid
              else pglast == old(pglast) && head.Contents() == old(head.Contents()) &&
                   (Exhausted() || forall k :: k in records ==> k <= pglast)
      ensures WithinBudget(records, |before|, lo, pglast, num, if read && old(|head.Contents()|) >= num then used + 1 else used)
    {
      hide Descending, AllIds, Fetched, Distinct, WithinBudget, Keys, OlderThanReaders, IsOldest;
      read, found' := false, found;
      var recent: bool;
      recent, found' := TooRecent(pglast + 1, found');
      if recent { return; }
      if forall k :: k in records.Keys ==> k <= pglast { return; }
      var key := FirstFrom(records.Keys, pglast + 1);
      recent, found' := TooRecent(key, found');
      if recent { return; }
      ListIs(before, lo);
      KeysNext(records, lo, pglast, key);
      BudgetNext(records, |before|, lo, pglast, key, num, used);
      OlderNext(records, slots, lo, pglast, key, pgoldest);
      Fetch(key);
      read := true;
    }

    /**
     Look for a run of `num` reclaimed pages, reading more records while that may help; 0 if there
     is none. It gives up only with `num` pages at hand and after reading `num * 60` records, and
     reads no more than that once it has `num` pages.
     */
    method Seek(num: nat) returns (i: nat, gaveUp: bool)
      requires Valid() && num > 0
      modifies this`pglast, this`pgoldest, head, head.ids
      ensures Valid() && Kept()
      ensures head.ids == old(head.ids) || fresh(head.ids)
      ensures OlderThanReaders(records, slots, old(pglast), pglast)
      ensures if i > 0 then RunEndsAt(head.Contents(), i, num) else forall x :: x > 0 ==> !RunEndsAt(head.Contents(), x, num)
      ensures i == 0 ==> gaveUp || Exhausted() || forall k :: k in records ==> k <= pglast
      ensures gaveUp ==> |head.Contents()| >= num && |Keys(records, old(pglast), pglast)| >= num * 60
      ensures WithinBudget(records, |old(head.Contents())|, old(pglast), pglast, num, num * 60)
      ensures old(pglast) < pglast ==> pglast + 1 < txnid
    {
      hide Descending, AllIds, Fetched, Distinct, RunEndsAt, WithinBudget, Keys, OlderThanReaders, IsOldest;
      var retry: int, found := num * 60, false;
      gaveUp := false;
      ghost var before, lo := head.Contents(), pglast;
      BudgetStart(records, |before|, lo, num);
      NoneRead(records, slots, lo);
      while true
        invariant Valid() && Kept() && !gaveUp && (found ==> IsOldest(slots, txnid, pgoldest))
        invariant head.ids == old(head.ids) || fresh(head.ids)
        invariant OlderThanReaders(records, slots, old(pglast), pglast)
        invariant old(pglast) < pglast ==> pglast + 1 < txnid
        invariant 0 <= retry <= num * 60 && |Keys(records, lo, pglast)| >= num * 60 - retry
        invariant WithinBudget(records, |before|, lo, pglast, num, num * 60 - retry)
        decreases txnid - pglast
      {
        var many := head.ids[0] >= num;
        i := FindRun(head.ids, num);
        BudgetGrows(records, |before|, lo, pglast, num, num * 60 - retry, num * 60);
        if i > 0 { return; }
        if many {
          retry := retry - 1;
          if retry < 0 { return 0, true; }
        }
        var read: bool;
        read, found := ReadNext(found, before, lo, num, if many then num * 60 - retry - 1 else num * 60 - retry);
        if !read { return; }
      }
    }

    /** Unless the search gave up, every usable record was read. */
    lemma AllRead(before: seq<Pgno>, lo: TxnId, gaveUp: bool, num: nat)
      requires Valid() && lo <= pglast
      requires multiset(head.Contents()) + Unread() == multiset(before) + Fetched(records, lo, txnid)
      requires gaveUp || Exhausted() || forall k :: k in records ==> k <= pglast
      requires gaveUp ==> |Keys(records, lo, pglast)| >= num * 60
      ensures multiset(head.Contents()) == multiset(before) + Fetched(records, lo, pglast)
      ensures |Keys(records, lo, pglast)| >= num * 60 ||
              forall k :: k in Usable(records, slots, txnid, lo) ==> lo < k <= pglast && k in records
    {
      hide Descending, AllIds, Fetched, Distinct, Keys, IsOldest, ActiveReader;
      ListIs(before, lo);
      if !gaveUp && Exhausted() { UsableAreRead(records, slots, txnid, lo, pglast, pgoldest); }
    }

    /** Take the run that ends at position i out of the reclaimed list. */
    method TakeReclaimed(i: nat, num: nat) returns (pg: Pgno)
      requires Valid() && RunEndsAt(head.Contents(), i, num)
      modifies head.ids
      ensures Valid() && head.Valid()
      ensures multiset(head.Contents()) + Unread() + multiset(DescRange(pg, num)) == old(multiset(head.Contents()) + Unread())
    {
      hide Descending, AllIds, Fetched, Distinct, RunEndsAt, StrictlyDescending, Without, DescRange;
      ghost var s := head.Contents();
      DistinctDescends(s, Unread());
      AtPosition(s, i, num);
      pg := head.ids[i];
      WithoutTakes(s, i, num);
      TakeRun(head.ids, i, num);
      Taken(s, i, num, Unread());
    }

    /** The next new pages, if the map has room for them. */
    method TakeNew(num: nat) returns (rc: Status, pg: Pgno)
      requires Valid() && num > 0 && forall x :: x > 0 ==> !RunEndsAt(head.Contents(), x, num)
      modifies this`next, this`error
      ensures Valid() && pg == old(next)
      ensures if rc == Success then next == pg + num && next < maxpg && error == old(error)
              else rc == MapFull && next == old(next) && next + num >= maxpg && error
      ensures forall p :: !AllFree(head.Contents(), p, num)
    {
      hide Descending, AllIds, Fetched, Distinct, RunEndsAt, StrictlyDescending, AllFree;
      DistinctDescends(head.Contents(), Unread());
      RunIffAllFree(head.Contents(), num);
      NoRun(head.Contents(), num);
      pg := next;
      if pg + num >= maxpg {
        error := true;
        return MapFull, pg;
      }
      next := pg + num;
      return Success, pg;
    }

    lemma HeadIsValid()
      requires Valid()
      ensures head.Valid()
    {
    }

    /** When no run was found: new pages, although there may be a run if the search gave up. */
    method Grow(num: nat, ghost before: seq<Pgno>, ghost lo: TxnId, ghost gaveUp: bool) returns (rc: Status, pg: Pgno)
      requires Valid() && num > 0 && lo <= pglast && forall x :: x > 0 ==> !RunEndsAt(head.Contents(), x, num)
      requires multiset(head.Contents()) + Unread() == multiset(before) + Fetched(records, lo, txnid)
      requires gaveUp || Exhausted() || forall k :: k in records ==> k <= pglast
      requires gaveUp ==> |Keys(records, lo, pglast)| >= num * 60
      modifies this`next, this`error
      ensures Valid() && pg == old(next)
      ensures if rc == Success then next == pg + num && next < maxpg && error == old(error)
              else rc == MapFull && next == old(next) && next + num >= maxpg && error
      ensures forall p :: !AllFree(head.Contents(), p, num)
      ensures || |Keys(records, lo, pglast)| >= num * 60
              || forall p: Pgno :: !RunAtHand(before, records, Usable(records, slots, txnid, lo), p, num)
    {
      hide Descending, AllIds, Fetched, Distinct, RunEndsAt, StrictlyDescending, AllFree, Keys, RunAtHand, Usable, Exhausted;
      AllRead(before, lo, gaveUp, num);
      rc, pg := TakeNew(num);
      if |Keys(records, lo, pglast)| < num * 60 {
        NothingMissed(before, head.Contents(), records, Usable(records, slots, txnid, lo), lo, pglast, num);
      }
    }

    /** The pages came out of the free ones, or are new and there was no run of free ones. */
    twostate predicate Took(pg: Pgno, num: nat)
      reads this, head, head.ids
      requires old(head.Valid()) && head.Valid()
    {
      || (next == old(next) &&
          multiset(head.Contents()) + Unread() + multiset(DescRange(pg, num)) == old(multiset(head.Contents()) + Unread()))
      || (pg == old(next) && next == pg + num && next < maxpg && Kept() && forall p :: !AllFree(head.Contents(), p, num))
    }

    /** Find the pages: reclaimed ones, or new ones. */
    method FindPages(num: nat) returns (rc: Status, pg: Pgno)
      requires Valid() && num > 0
      modifies this`pglast, this`pgoldest, this`next, this`error, head, head.ids
      ensures Valid() && old(pglast) <= pglast && rc != TxnFull
      ensures head.ids == old(head.ids) || fresh(head.ids)
      ensures OlderThanReaders(records, slots, old(pglast), pglast)
      ensures error == (old(error) || rc != Success)
      ensures rc == MapFull ==> Kept() && next == old(next) && next + num >= maxpg && forall p :: !AllFree(head.Contents(), p, num)
      ensures rc == Success && next != old(next) ==> old(next) + num < maxpg
      ensures rc == Success ==> Took(pg, num)
      ensures rc == MapFull || next != old(next) ==>
                || |Keys(records, old(pglast), pglast)| >= num * 60
                || forall p: Pgno :: !RunAtHand(old(head.Contents()), records, Usable(records, slots, txnid, old(pglast)), p, num)
      ensures WithinBudget(records, |old(head.Contents())|, old(pglast), pglast, num, num * 60)
      ensures old(pglast) < pglast ==> pglast + 1 < txnid
    {
      hide Descending, AllIds, Fetched, Distinct, RunEndsAt, DescRange, AllFree, ActiveReader, OlderThanReaders, Valid,
           WithinBudget, Keys, RunAtHand, Usable, Exhausted;
      HeadIsValid();
      ghost var before, lo := head.Contents(), pglast;
      var i, gaveUp := Seek(num);
      if i == 0 {
        HeadIsValid();
        rc, pg := Grow(num, before, lo, gaveUp);
      } else {
        pg := TakeReclaimed(i, num);
        rc := Success;
      }
    }

    /** mdb_page_alloc without loose pages. */
    method AllocOther(num: nat) returns (rc: Status, pg: Pgno)
      requires Valid() && num > 0 && dirtyRoom > 0
      modifies this`pglast, this`pgoldest, this`next, this`error, this`dirty, this`dirtyRoom, head, head.ids
      ensures Valid() && old(pglast) <= pglast && rc != TxnFull
      ensures head.ids == old(head.ids) || fresh(head.ids)
      ensures OlderThanReaders(records, slots, old(pglast), pglast)
      ensures error == (old(error) || rc != Success)
      ensures rc == MapFull ==> Kept() && next == old(next) && dirty == old(dirty) && dirtyRoom == old(dirtyRoom)
      ensures rc == MapFull ==> next + num >= maxpg && forall p :: !AllFree(head.Contents(), p, num)
      ensures rc == Success && next != old(next) ==> old(next) + num < maxpg
      ensures rc == Success ==> dirty == old(dirty) + {pg} && dirtyRoom == old(dirtyRoom) - 1 && Took(pg, num)
      ensures rc == MapFull || next != old(next) ==>
                || |Keys(records, old(pglast), pglast)| >= num * 60
                || forall p: Pgno :: !RunAtHand(old(head.Contents()), records, Usable(records, slots, txnid, old(pglast)), p, num)
      ensures WithinBudget(records, |old(head.Contents())|, old(pglast), pglast, num, num * 60)
      ensures old(pglast) < pglast ==> pglast + 1 < txnid
    {
      hide Descending, AllIds, Fetched, Distinct, RunEndsAt, DescRange, AllFree, ActiveReader, OlderThanReaders, Valid,
           WithinBudget, Keys, RunAtHand, Usable, Exhausted;
      HeadIsValid();
      rc, pg := FindPages(num);
      if rc == Success { MarkDirty(pg); }
    }

    /** mdb_page_dirty */
    method MarkDirty(pg: Pgno)
      requires Valid() && dirtyRoom > 0
      modifies this`dirty, this`dirtyRoom
      ensures Valid() && dirty == old(dirty) + {pg} && dirtyRoom == old(dirtyRoom) - 1
    {
      dirty, dirtyRoom := dirty + {pg}, dirtyRoom - 1;
    }

    /**
     mdb_page_alloc. The pages handed out are a loose page, or pages of the reclaimed list or of
     records older than every reader, or the next new pages; nothing else moves. If there is no
     run of free pages the file grows, or if the map has no room for that it fails; but not as long
     as the reclaimed pages and those of the usable records hold a run, unless there are `num * 60`
     such records or more and it has read that many.
     */
    method Alloc(num: nat) returns (rc: Status, pg: Pgno)
      requires Valid() && num > 0
      modifies this, head, head.ids
      ensures Valid() && old(pglast) <= pglast
      ensures OlderThanReaders(records, slots, old(pglast), pglast)
      ensures error == (old(error) || rc != Success)
      ensures rc == TxnFull <==> !(num == 1 && old(loose) != []) && old(dirtyRoom) == 0
      ensures rc == MapFull ==> next + num >= maxpg && forall p :: !AllFree(head.Contents(), p, num)
      ensures rc == Success && next != old(next) ==> old(next) + num < maxpg
      ensures rc != Success ==> Kept() && next == old(next) && loose == old(loose) && dirty == old(dirty) && dirtyRoom == old(dirtyRoom)
      ensures rc == Success ==>
        if num == 1 && old(loose) != [] then
          pg == old(loose)[0] && loose == old(loose)[1..] && Kept() && pglast == old(pglast) &&
          next == old(next) && dirty == old(dirty) && dirtyRoom == old(dirtyRoom)
        else loose == old(loose) && dirty == old(dirty) + {pg} && dirtyRoom == old(dirtyRoom) - 1 && Took(pg, num)
      ensures rc == MapFull || next != old(next) ==>
                || |Keys(records, old(pglast), pglast)| >= num * 60
                || forall p: Pgno :: !RunAtHand(old(head.Contents()), records, Usable(records, slots, txnid, old(pglast)), p, num)
      ensures |Keys(records, old(pglast), pglast)| <= |Usable(records, slots, txnid, old(pglast))|
      ensures WithinBudget(records, |old(head.Contents())|, old(pglast), pglast, num, num * 60)
    {
      hide Descending, AllIds, Fetched, Distinct, DescRange, AllFree, ActiveReader, RunAtHand, Usable, Keys, WithinBudget, OlderThanReaders;
      BudgetStart(records, |head.Contents()|, pglast, num);
      BudgetGrows(records, |head.Contents()|, pglast, pglast, num, 0, num * 60);
      NoneRead(records, slots, pglast);
      ghost var lo := pglast;
      if num == 1 && loose != [] {
        pg, loose := loose[0], loose[1..];
        return Success, pg;
      }
      if dirtyRoom == 0 {
        error := true;
        return TxnFull, 0;
      }
      rc, pg := AllocOther(num);
      ReadAreUsable(records, slots, txnid, lo, pglast);
    }
  }

  lemma AtPosition(s: seq<nat>, i: nat, num: nat)
    requires RunEndsAt(s, i, num)
    ensures 0 < num <= i <= |s|
  {
  }

  lemma NoRun(s: seq<nat>, num: nat)
    requires num > 0 && forall x :: x > 0 ==> !RunEndsAt(s, x, num)
    ensures !exists i :: RunEndsAt(s, i, num)
  {
  }

  lemma Taken(s: seq<nat>, i: nat, num: nat, rest: multiset<nat>)
    requires num <= i <= |s| && i > 0 && Distinct(multiset(s) + rest)
    requires multiset(Without(s, i, num)) + multiset(DescRange(s[i - 1], num)) == multiset(s)
    ensures Distinct(multiset(Without(s, i, num)) + rest)
    ensures |multiset(Without(s, i, num)) + rest| <= |multiset(s) + rest|
    ensures multiset(Without(s, i, num)) + rest + multiset(DescRange(s[i - 1], num)) == multiset(s) + rest
  {
    var a, b := multiset(Without(s, i, num)), multiset(DescRange(s[i - 1], num));
    assert (a + rest) + b == multiset(s) + rest;
    assert forall p :: (a + rest)[p] <= (multiset(s) + rest)[p];
  }
}
