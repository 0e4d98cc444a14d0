/**
 Saving the free lists to the free database at commit (mdb_freelist_save, mdb.c:2866-3053).

 The free database is a map from transaction ids to records. Every cursor operation on it may
 itself consume reclaimed pages, fetch more records, use up loose pages or free pages, since it
 writes to a tree of pages; what it does to the lists is given by a script, one entry for each
 operation, and nothing after the script ends. The results hold for every script.
 */
module FreelistSave {
  import opened IdList
  import IdSort
  import IdBlock
  import opened RecordKeys

  /** A record has room for that many ids, not counting the length word, and holds a list of ids. */
  datatype Record = Record(room: nat, ids: seq<nat>)

  /** me_pghead, me_pglast, mt_free_pgs and mt_loose_pgs; me_pglast is 0 while me_pghead is NULL. */
  datatype Lists = Lists(pghead: seq<nat>, pglast: nat, freed: seq<nat>, loose: seq<nat>)

  /** What an operation on the free database does to the lists: it appends to mt_free_pgs. */
  datatype Effect = Effect(pghead: seq<nat>, pglast: nat, freed: seq<nat>, loose: seq<nat>)

  function Applied(l: Lists, e: Effect): Lists {
    Lists(e.pghead, e.pglast, l.freed + e.freed, e.loose)
  }

  /** Lists that fit the limits of midl.c. */
  ghost predicate ListsOk(l: Lists) {
    && Descending(l.pghead) && AllIds(l.freed) && AllIds(l.loose)
    && 2 * |l.freed| <= IdSort.INT_MAX && 2 * |l.loose| <= IdSort.INT_MAX
    && |l.pghead| + 2 * |l.loose| + 1 < 0xC000_0000
    && (l.pglast == 0 ==> l.pghead == [] && l.loose == [])
  }

  /** Records are fetched in order, so me_pglast is one of the later records' keys when it moves. */
  ghost predicate ScriptOk(script: seq<Effect>, l: Lists, later: set<nat>, txnid: nat) {
    && ListsOk(l) && l.pglast < txnid
    && (script == [] || (
      var e := script[0];
      && l.pglast <= e.pglast && (e.pglast in later || e.pglast == l.pglast)
      && ScriptOk(script[1..], Applied(l, e), later, txnid)))
  }

  /** The order of mt_free_pgs does not matter. */
  lemma {:induction false} ScriptOkSorted(script: seq<Effect>, l: Lists, l': Lists, later: set<nat>, txnid: nat)
    requires ScriptOk(script, l, later, txnid) && AllIds(l'.freed)
    requires l' == l.(freed := l'.freed) && |l'.freed| == |l.freed|
    ensures ScriptOk(script, l', later, txnid)
  {
    if script != [] {
      var e := script[0];
      assert forall x :: 0 <= x < |e.freed| ==> e.freed[x] == (l.freed + e.freed)[|l.freed| + x];
      ScriptOkSorted(script[1..], Applied(l, script[0]), Applied(l', script[0]), later, txnid);
    }
  }

  /** The lists after some operations. */
  ghost function After(l: Lists, log: seq<Effect>): Lists {
    if log == [] then l else Applied(After(l, log[..|log| - 1]), log[|log| - 1])
  }

  /** The room of the records with keys h .. p. */
  ghost function Room(db: map<nat, Record>, h: nat, p: nat): nat
    requires forall k :: h <= k <= p ==> k in db
    decreases p + 1 - h
  {
    if h > p then 0 else db[h].room + Room(db, h + 1, p)
  }

  /** The ids in the records with keys p down to h. */
  ghost function Stored(db: map<nat, Record>, h: nat, p: int): seq<nat>
    requires forall k :: h <= k <= p ==> k in db
    decreases p + 1 - h
  {
    if h > p then [] else db[p].ids + Stored(db, h, p - 1)
  }

  lemma {:induction false} RoomSame(db: map<nat, Record>, db': map<nat, Record>, h: nat, p: nat)
    requires forall k :: h <= k <= p ==> k in db && k in db' && db[k] == db'[k]
    ensures Room(db, h, p) == Room(db', h, p)
    decreases p + 1 - h
  {
    if h <= p { RoomSame(db, db', h + 1, p); }
  }

  lemma {:induction false} StoredSame(db: map<nat, Record>, db': map<nat, Record>, h: nat, p: int)
    requires forall k :: h <= k <= p ==> k in db && k in db' && db[k] == db'[k]
    ensures Stored(db, h, p) == Stored(db', h, p)
    decreases p + 1 - h
  {
    if h <= p { StoredSame(db, db', h, p - 1); }
  }

  lemma {:induction false} StoredEmptyAbove(db: map<nat, Record>, h: nat, m: int, p: int)
    requires forall k :: h <= k <= p ==> k in db
    requires h - 1 <= m <= p && forall k: nat :: m < k <= p ==> db[k].ids == []
    ensures Stored(db, h, p) == Stored(db, h, m)
    decreases p - m
  {
    if m < p {
      StoredEmptyAbove(db, h, m, p - 1);
      assert db[p].ids == [];
    }
  }

  // ---- Cursor positions ----------------------------------------------------------------------

  /** mdb_midl_sort of a list. */
  method SortIds(s: seq<nat>) returns (r: seq<nat>)
    requires AllIds(s) && 2 * |s| <= IdSort.INT_MAX
    ensures |r| == |s| && Descending(r) && AllIds(r) && multiset(r) == multiset(s)
  {
    hide IdSort.Rearranged;
    var a := new nat[|s| + 1];
    IdBlock.WriteList(a, 0, s);
    ghost var before := a[..];
    IdSort.Sort(a, 0);
    IdBlock.ScratchSorted(before, a[..], 0, s);
    r := a[1..a[0] + 1];
    assert r == a[..][1..1 + |s|];
  }

  // ---- The state between two operations ------------------------------------------------------

  /** Records later than me_pglast are as they were, except for the transaction's own. */
  ghost predicate Later(db: map<nat, Record>, db0: map<nat, Record>, pglast: nat, txnid: nat) {
    forall k :: pglast < k && k != txnid ==> (k in db <==> k in db0) && (k in db ==> db[k] == db0[k])
  }

  /** The transaction's own record holds what was saved of mt_free_pgs, in descending order. */
  ghost predicate Own(db: map<nat, Record>, txnid: nat, freed: seq<nat>, freecnt: nat) {
    && freecnt <= |freed|
    && (if freecnt == 0 then txnid !in db
        else txnid in db && db[txnid].ids == freed[..freecnt] && Descending(freed[..freecnt]))
  }

  /** Of the records up to me_pglast only those reserved for me_pghead are left, and they are empty. */
  ghost predicate Reserved(db: map<nat, Record>, pglast: nat, headId: nat, headRoom: nat, totalRoom: nat) {
    && headId <= pglast && (headId > 0 || pglast == 0) && 0 !in db
    && (forall k: nat :: k < headId ==> k !in db)
    && (forall k :: headId < k <= pglast ==> k in db)
    && (forall k :: headId <= k <= pglast && k in db ==> db[k].ids == [])
    && (if headId in db then headRoom == db[headId].room else headId == pglast && headRoom == 0)
    && totalRoom == headRoom + Room(db, headId + 1, pglast)
  }

  lemma LaterMonotone(db: map<nat, Record>, db0: map<nat, Record>, p: nat, p': nat, txnid: nat)
    requires Later(db, db0, p, txnid) && p <= p'
    ensures Later(db, db0, p', txnid)
    ensures p < p' < txnid && p' in db0 ==> p' in db
  {
  }

  lemma FreedGrows(db: map<nat, Record>, txnid: nat, freed: seq<nat>, freed': seq<nat>, freecnt: nat)
    requires Own(db, txnid, freed, freecnt) && freed <= freed'
    ensures Own(db, txnid, freed', freecnt)
  {
    assert freed'[..freecnt] == freed[..freecnt];
  }

  lemma FirstDeleted(db: map<nat, Record>, db0: map<nat, Record>, key: nat, pglast: nat, txnid: nat, freed: seq<nat>, freecnt: nat)
    requires Later(db, db0, pglast, txnid) && Own(db, txnid, freed, freecnt) && 0 !in db && key <= pglast < txnid
    requires key in db && pglast in db && forall j :: j in db ==> key <= j
    ensures Later(db - {key}, db0, pglast, txnid) && Own(db - {key}, txnid, freed, freecnt)
    ensures if key < pglast then pglast in db - {key} else Reserved(db - {key}, pglast, pglast, 0, 0)
  {
  }

  /** The lists are what the operations made of them, up to the order of mt_free_pgs; later records are untouched. */
  ghost predicate Traced(now: Lists, start: Lists, log: seq<Effect>, script: seq<Effect>,
                         db: map<nat, Record>, db0: map<nat, Record>, txnid: nat) {
    var l := After(start, log);
    && now.pghead == l.pghead && now.pglast == l.pglast && now.loose == l.loose
    && multiset(now.freed) == multiset(l.freed)
    && ScriptOk(script, now, db0.Keys, txnid)
    && Later(db, db0, now.pglast, txnid)
  }

  lemma {:induction false} EffectKeeps(now: Lists, start: Lists, log: seq<Effect>, script: seq<Effect>,
                                       db: map<nat, Record>, db0: map<nat, Record>, txnid: nat)
    requires Traced(now, start, log, script, db, db0, txnid) && script != []
    ensures var e := script[0];
            && Traced(Applied(now, e), start, log + [e], script[1..], db, db0, txnid)
            && now.pglast <= e.pglast < txnid && (now.pglast < e.pglast ==> e.pglast in db)
  {
    hide Later, AllIds, Descending;
    var e := script[0];
    LaterMonotone(db, db0, now.pglast, e.pglast, txnid);
    assert (log + [e])[..|log|] == log;
    assert ScriptOk(script[1..], Applied(now, e), db0.Keys, txnid);
    assert ListsOk(Applied(now, e));
  }

  lemma TracedBounds(now: Lists, start: Lists, log: seq<Effect>, script: seq<Effect>,
                     db: map<nat, Record>, db0: map<nat, Record>, txnid: nat)
    requires Traced(now, start, log, script, db, db0, txnid)
    ensures now.pglast < txnid && ListsOk(now) && Later(db, db0, now.pglast, txnid)
  {
  }

  /** Where the loop stands: the record being filled, the ids reserved in it and in all. */
  datatype Place = Place(seen: nat, headId: nat, headRoom: nat, totalRoom: nat)

  /** The records agree with the lists and with what was reserved so far. */
  ghost predicate RecordsOk(db: map<nat, Record>, txnid: nat, now: Lists, freecnt: nat, at: Place) {
    && Own(db, txnid, now.freed, freecnt) && 0 !in db && at.seen <= now.pglast
    && (if at.seen < now.pglast then now.pglast in db
        else Reserved(db, now.pglast, at.headId, at.headRoom, at.totalRoom))
  }

  lemma RecordsAfterEffect(db: map<nat, Record>, txnid: nat, now: Lists, freecnt: nat, at: Place, e: Effect)
    requires RecordsOk(db, txnid, now, freecnt, at)
    requires now.pglast <= e.pglast && (now.pglast < e.pglast ==> e.pglast in db)
    ensures RecordsOk(db, txnid, Applied(now, e), freecnt, at)
  {
    hide Own, Reserved;
    FreedGrows(db, txnid, now.freed, now.freed + e.freed, freecnt);
  }

  lemma {:induction false} OwnSaved(db: map<nat, Record>, db0: map<nat, Record>, txnid: nat, start: Lists, log: seq<Effect>,
                                    script: seq<Effect>, now: Lists, freecnt: nat, at: Place, r: seq<nat>)
    requires Traced(now, start, log, script, db, db0, txnid) && RecordsOk(db, txnid, now, freecnt, at)
    requires |r| == |now.freed| > 0 && Descending(r) && AllIds(r) && multiset(r) == multiset(now.freed)
    ensures var now' := now.(freed := r); var db' := db[txnid := Record(|r|, r)];
            Traced(now', start, log, script, db', db0, txnid) && RecordsOk(db', txnid, now', |r|, at)
  {
    hide After;
    assert r[..|r|] == r;
    ScriptOkSorted(script, now, now.(freed := r), db0.Keys, txnid);
    hide ScriptOk, AllIds, Descending;
    if at.seen == now.pglast {
      RoomSame(db, db[txnid := Record(|r|, r)], at.headId + 1, now.pglast);
    }
  }

  // ---- Reserving room ------------------------------------------------------------------------

  /** The room to give the current record, when the others hold `rest` of `mopLen` ids. */
  function HeadRoom(mopLen: int, rest: int, headId: nat, maxfree: nat): (r: nat)
    requires headId > 0 && maxfree > 0
    ensures headId == 1 && rest <= mopLen ==> rest + r == mopLen
    ensures rest <= mopLen ==> rest + r == mopLen || r >= maxfree
  {
    var room := mopLen - rest;
    if room > maxfree && headId > 1 then
      var part := room / headId;
      RoundedUp(part, maxfree);
      part + maxfree - part % (maxfree + 1)
    else if room < 0 then 0
    else room
  }

  lemma RoundedUp(part: nat, maxfree: nat)
    ensures part + maxfree - part % (maxfree + 1) >= maxfree
  {
  }

  /** The place to go on from: the current record, or the one before it once it spans more than a page. */
  function NextHead(at: Place, mopLen: int, maxfree: nat): Place {
    if at.totalRoom < mopLen && at.headRoom >= maxfree && at.headId > 1 then
      at.(headId := at.headId - 1, headRoom := 0)
    else at
  }

  function NextPlace(at: Place, mopLen: int, maxfree: nat): Place
    requires at.headId > 0 && maxfree > 0 && at.headRoom <= at.totalRoom
  {
    var h := NextHead(at, mopLen, maxfree);
    var rest := h.totalRoom - h.headRoom;
    var room := HeadRoom(mopLen, rest, h.headId, maxfree);
    Place(h.seen, h.headId, room, rest + room)
  }

  /** How far the reservation is from done while the list keeps its length. */
  function Lag(at: Place, mopLen: int, maxfree: nat): nat {
    if at.totalRoom == mopLen then 0 else if at.headRoom < maxfree then 2 else 1
  }

  lemma {:induction false} ReservedNext(db: map<nat, Record>, pglast: nat, at: Place, mopLen: int, maxfree: nat)
    requires Reserved(db, pglast, at.headId, at.headRoom, at.totalRoom) && maxfree > 0 && at.headId > 0
    ensures at.headRoom <= at.totalRoom
    ensures var n := NextPlace(at, mopLen, maxfree); n.seen == at.seen && 0 < n.headId <= at.headId
    ensures var n := NextPlace(at, mopLen, maxfree);
            Reserved(db[n.headId := Record(n.headRoom, [])], pglast, n.headId, n.headRoom, n.totalRoom)
  {
    var n := NextPlace(at, mopLen, maxfree);
    var h := NextHead(at, mopLen, maxfree);
    var db' := db[n.headId := Record(n.headRoom, [])];
    RoomSame(db, db', at.headId + 1, pglast);
    if n.headId < at.headId {
      assert Room(db', at.headId, pglast) == db'[at.headId].room + Room(db', at.headId + 1, pglast);
    }
  }

  predicate Closer(n: Place, at: Place, mopLen: int, maxfree: nat) {
    n.headId < at.headId || (n.headId == at.headId && Lag(n, mopLen, maxfree) < Lag(at, mopLen, maxfree))
  }

  /** While the reserved room is short, each round comes closer. */
  lemma LagShrinks(at: Place, mopLen: int, maxfree: nat)
    requires at.headId > 0 && maxfree > 0 && at.headRoom <= at.totalRoom < mopLen
    ensures Closer(NextPlace(at, mopLen, maxfree), at, mopLen, maxfree)
  {
  }

  lemma NothingToReserve(db: map<nat, Record>, txnid: nat, now: Lists, freecnt: nat, at: Place)
    requires RecordsOk(db, txnid, now, freecnt, at) && ListsOk(now) && at.seen == now.pglast
    ensures at.headId == 0 ==> at.totalRoom == |now.pghead| + |now.loose|
    ensures Reserved(db, now.pglast, at.headId, at.headRoom, at.totalRoom)
  {
  }

  lemma {:induction false} RecordsReserved(db: map<nat, Record>, db0: map<nat, Record>, txnid: nat, start: Lists, log: seq<Effect>,
                                           script: seq<Effect>, now: Lists, freecnt: nat, at: Place, n: Place)
    requires Traced(now, start, log, script, db, db0, txnid) && RecordsOk(db, txnid, now, freecnt, at)
    requires at.seen == now.pglast == n.seen && 0 < n.headId
    requires var db' := db[n.headId := Record(n.headRoom, [])]; Reserved(db', now.pglast, n.headId, n.headRoom, n.totalRoom)
    ensures var db' := db[n.headId := Record(n.headRoom, [])];
            Traced(now, start, log, script, db', db0, txnid) && RecordsOk(db', txnid, now, freecnt, n)
  {
    hide ScriptOk, After;
    TracedBounds(now, start, log, script, db, db0, txnid);
  }

  /** The pages freed by some operations. */
  ghost function FreedBy(log: seq<Effect>): multiset<nat> {
    if log == [] then multiset{} else FreedBy(log[..|log| - 1]) + multiset(log[|log| - 1].freed)
  }

  lemma {:induction false} AfterAll(l: Lists, log: seq<Effect>)
    ensures multiset(After(l, log).freed) == multiset(l.freed) + FreedBy(log)
    ensures log == [] ==> After(l, log) == l
    ensures log != [] ==> var e, l' := log[|log| - 1], After(l, log); l'.pghead == e.pghead && l'.pglast == e.pglast && l'.loose == e.loose
  {
    if log != [] { AfterAll(l, log[..|log| - 1]); }
  }

  /** Without reclaimed pages, loose pages go to mt_free_pgs at the start. */
  function Opening(l: Lists): Lists {
    if l.pglast == 0 then l.(freed := l.freed + l.loose, loose := []) else l
  }

  lemma Opened(l: Lists)
    ensures var o := Opening(l);
            && o.pghead == l.pghead && o.pglast == l.pglast
            && multiset(o.freed) == multiset(l.freed) + (if l.pglast == 0 then multiset(l.loose) else multiset{})
            && o.loose == if l.pglast == 0 then [] else l.loose
  {
  }

  // ---- The operations ------------------------------------------------------------------------

  /** An operation on the free database: touching its first or last page, a put with room for so many ids, a deletion. */
  datatype Op = Touch | Put(key: nat, room: nat) | Del(key: nat)

  /** The room of every record. */
  ghost function Rooms(db: map<nat, Record>): map<nat, nat> {
    map k | k in db :: db[k].room
  }

  ghost function PlayedOn(rooms: map<nat, nat>, op: Op): map<nat, nat> {
    match op
    case Touch => rooms
    case Put(key, room) => rooms[key := room]
    case Del(key) => rooms - {key}
  }

  /** What operations make of the rooms. */
  ghost function Played(rooms: map<nat, nat>, ops: seq<Op>): map<nat, nat> {
    if ops == [] then rooms else PlayedOn(Played(rooms, ops[..|ops| - 1]), ops[|ops| - 1])
  }

  lemma PlayedOne(rooms: map<nat, nat>, ops: seq<Op>, op: Op)
    ensures Played(rooms, ops + [op]) == PlayedOn(Played(rooms, ops), op)
  {
    assert (ops + [op])[..|ops|] == ops;
  }

  lemma RoomsPut(db: map<nat, Record>, key: nat, room: nat, ids: seq<nat>)
    ensures Rooms(db[key := Record(room, ids)]) == Rooms(db)[key := room]
  {
  }

  lemma RoomsDeleted(db: map<nat, Record>, key: nat)
    ensures Rooms(db - {key}) == Rooms(db) - {key}
  {
  }

  /** After `before` come only puts of one key. */
  ghost predicate Puts(before: seq<Op>, ops: seq<Op>, key: nat) {
    before < ops && forall i :: |before| <= i < |ops| ==> ops[i].Put? && ops[i].key == key
  }

  lemma {:induction false} PutsPlayed(rooms: map<nat, nat>, before: seq<Op>, ops: seq<Op>, key: nat)
    requires Puts(before, ops, key)
    ensures Played(rooms, ops) == Played(rooms, before)[key := ops[|ops| - 1].room]
    decreases |ops|
  {
    var front := ops[..|ops| - 1];
    if front == before {
    } else {
      PutsPlayed(rooms, before, front, key);
    }
  }

  // ---- Filling the reserved records ----------------------------------------------------------

  /** The records below `id` hold the end of the list, those from `id` on have room for the rest. */
  ghost predicate Filling(db: map<nat, Record>, reserved: map<nat, Record>, h: nat, p: nat, id: nat, list: seq<nat>, left: nat) {
    && h <= id <= p + 1 && left <= |list| && db.Keys == reserved.Keys
    && (forall k :: h <= k <= p ==> k in db)
    && (forall k :: k in db && !(h <= k < id) ==> db[k] == reserved[k])
    && (forall k :: h <= k <= p ==> reserved[k].ids == [])
    && Stored(db, h, id - 1) == list[left..]
    && Room(reserved, id, p) >= left
  }

  lemma {:induction false} FillStep(db: map<nat, Record>, reserved: map<nat, Record>, h: nat, p: nat, id: nat, list: seq<nat>, left: nat)
    requires Filling(db, reserved, h, p, id, list, left) && left > 0
    ensures h <= id <= p && id in db
    ensures var len := if db[id].room > left then left else db[id].room;
            Filling(db[id := Record(len, list[left - len..left])], reserved, h, p, id + 1, list, left - len)
  {
    hide Stored;
    var len := if db[id].room > left then left else db[id].room;
    var db' := db[id := Record(len, list[left - len..left])];
    StoredSame(db, db', h, id - 1);
    StoredLast(db', h, id);
    assert list[left - len..left] + list[left..] == list[left - len..];
  }

  lemma StoredLast(db: map<nat, Record>, h: nat, p: nat)
    requires h <= p && forall k :: h <= k <= p ==> k in db
    ensures Stored(db, h, p) == db[p].ids + Stored(db, h, p - 1)
  {
  }

  lemma {:induction false} Filled(db: map<nat, Record>, reserved: map<nat, Record>, h: nat, p: nat, id: nat, list: seq<nat>)
    requires Filling(db, reserved, h, p, id, list, 0)
    ensures forall k :: h <= k <= p ==> k in db
    ensures Stored(db, h, p) == list
    ensures forall k :: !(h <= k <= p) ==> (k in db <==> k in reserved) && (k in db ==> db[k] == reserved[k])
  {
    StoredEmptyAbove(db, h, id - 1, p);
  }

  /** The record made of `len` ids after slot `o`, which is borrowed for the length and put back. */
  method WriteChunk(mop: array<nat>, o: nat, len: nat) returns (r: Record)
    requires o + len < mop.Length
    modifies mop
    ensures mop[..] == old(mop[..])
    ensures r == Record(len, mop[..][o + 1..o + 1 + len])
  {
    ghost var s := mop[..];
    var save := mop[o];
    mop[o] := len;
    r := Record(len, mop[o + 1..o + 1 + mop[o]]);
    mop[o] := save;
    assert mop[..] == s;
  }

  /** Write the list to the reserved records, lowest key first, from its end. */
  method Fill(reserved: map<nat, Record>, mop: array<nat>, ghost h: nat, ghost p: nat) returns (db: map<nat, Record>)
    requires (forall k: nat :: k < h ==> k !in reserved) && forall k :: h <= k <= p ==> k in reserved && reserved[k].ids == []
    requires IsList(mop, 0) && 0 < mop[0] <= Room(reserved, h, p)
    modifies mop
    ensures mop[..] == old(mop[..])
    ensures forall k :: h <= k <= p ==> k in db
    ensures Stored(db, h, p) == List(mop, 0)
    ensures forall k :: !(h <= k <= p) ==> (k in db <==> k in reserved) && (k in db ==> db[k] == reserved[k])
  {
    hide Room, Stored, Filling;
    ghost var s, list := mop[..], List(mop, 0);
    db := reserved;
    var left := mop[0];
    assert list[left..] == [] && list == s[1..|list| + 1];
    FillStart(reserved, h, p, list);
    assert h in db;
    var id := FirstFrom(db.Keys, 0);
    assert id == h;
    while true
      invariant mop[..] == s && 0 < left <= mop[0] && Filling(db, reserved, h, p, id, list, left) && id <= p
      decreases p - id
    {
      FillStep(db, reserved, h, p, id, list, left);
      var len := db[id].room;
      if len > left { len := left; }
      var chunk := WriteChunk(mop, left - len, len);
      SliceOf(s, list, left - len, left);
      db := db[id := chunk];
      left := left - len;
      if left == 0 { break; }
      RoomAhead(db, reserved, h, p, id + 1, list, left);
      id := FirstFrom(db.Keys, id + 1);
    }
    Filled(db, reserved, h, p, id + 1, list);
    assert List(mop, 0) == list;
  }

  lemma SliceOf(s: seq<nat>, list: seq<nat>, a: nat, b: nat)
    requires |list| < |s| && list == s[1..|list| + 1] && a <= b <= |list|
    ensures s[a + 1..b + 1] == list[a..b]
  {
    forall i | 0 <= i < b - a ensures s[a + 1..b + 1][i] == list[a..b][i] {
      assert list[a + i] == s[1..|list| + 1][a + i];
    }
  }

  lemma FillStart(reserved: map<nat, Record>, h: nat, p: nat, list: seq<nat>)
    requires forall k :: h <= k <= p ==> k in reserved && reserved[k].ids == []
    requires 0 < |list| <= Room(reserved, h, p)
    ensures h <= p && Filling(reserved, reserved, h, p, h, list, |list|)
  {
  }

  lemma RoomAhead(db: map<nat, Record>, reserved: map<nat, Record>, h: nat, p: nat, id: nat, list: seq<nat>, left: nat)
    requires Filling(db, reserved, h, p, id, list, left) && left > 0
    ensures id <= p && id in db
  {
  }

  /** Return the loose pages to the reclaimed list, whose block is grown for it. */
  method ReturnLoose(pghead: seq<nat>, loose: seq<nat>) returns (mop: array<nat>)
    requires Descending(pghead) && AllIds(loose) && 2 * |loose| <= IdSort.INT_MAX && |pghead| + 2 * |loose| + 1 < 0xC000_0000
    ensures IsList(mop, 0) && Descending(List(mop, 0)) && fresh(mop) && mop[0] == |pghead| + |loose|
    ensures multiset(List(mop, 0)) == multiset(pghead) + multiset(loose)
  {
    var block := new IdBlock.Idl(|pghead|);
    IdBlock.WriteList(block.ids, 0, pghead);
    assert block.Contents() == pghead;
    if loose != [] { block.MergeLoose(loose); }
    mop := block.ids;
    if loose == [] { assert List(mop, 0) == pghead; }
    assert |multiset(List(mop, 0))| == |multiset(pghead)| + |multiset(loose)|;
  }

  class Saver {
    const txnid: nat
    const maxfree: nat
    var now: Lists
    var db: map<nat, Record>

    // the variables of mdb_freelist_save
    var freecnt: nat
    var more: int
    var at: Place

    // the operations done; what those to come and those done do to the lists, and where it all began
    ghost var ops: seq<Op>
    var script: seq<Effect>
    ghost var log: seq<Effect>
    ghost const given: Lists
    ghost const start: Lists
    ghost const plan: seq<Effect>
    ghost const db0: map<nat, Record>

    ghost predicate Valid()
      reads this
    {
      && maxfree > 0 && log + script == plan && start == Opening(given)
      && Traced(now, start, log, script, db, db0, txnid)
      && RecordsOk(db, txnid, now, freecnt, at)
    }

    /** Every operation had its effect on the lists, and each record's room is what the puts and deletions made it. */
    ghost predicate Done()
      reads this
    {
      |log| == (if |ops| <= |plan| then |ops| else |plan|) && Rooms(db) == Played(Rooms(db0), ops)
    }

    /** The start of mdb_freelist_save. */
    constructor (txnid: nat, maxfree: nat, db: map<nat, Record>, lists: Lists, script: seq<Effect>)
      requires maxfree > 0 && 0 !in db && txnid !in db && (lists.pglast > 0 ==> lists.pglast in db)
      requires ScriptOk(script, Opening(lists), db.Keys, txnid)
      ensures Valid() && now == start && given == lists && plan == script && db0 == db && this.txnid == txnid
      ensures start.pghead == lists.pghead && start.pglast == lists.pglast
      ensures lists.pglast == 0 ==> start.loose == [] && multiset(start.freed) == multiset(lists.freed) + multiset(lists.loose)
      ensures lists.pglast > 0 ==> start == lists
      ensures this.db == db && more == 1 && at == Place(0, 0, 0, 0) && freecnt == 0 && ops == [] && Done()
    {
      this.txnid, this.maxfree, this.db, db0 := txnid, maxfree, db, db;
      now, start, given := Opening(lists), Opening(lists), lists;
      freecnt, more, at := 0, 1, Place(0, 0, 0, 0);
      this.script, log, plan, ops := script, [], script, [];
    }

    /** What an operation on the free database does on the side. */
    method Operate(ghost op: Op)
      requires Valid()
      modifies this`now, this`script, this`log, this`ops
      ensures Valid() && ops == old(ops) + [op]
      ensures |old(log)| == (if |old(ops)| <= |plan| then |old(ops)| else |plan|) ==> |log| == if |ops| <= |plan| then |ops| else |plan|
      ensures |script| < |old(script)| || (script == old(script) && now == old(now) && log == old(log))
      ensures old(script) == [] ==> script == [] && now == old(now) && log == old(log)
      ensures old(script) != [] ==> script == old(script)[1..] && log == old(log) + [old(script)[0]]
      ensures old(script) != [] ==> now == Lists(old(script)[0].pghead, old(script)[0].pglast,
                                                 old(now.freed) + old(script)[0].freed, old(script)[0].loose)
      ensures old(now).pglast <= now.pglast && old(now.freed) <= now.freed
    {
      hide Traced, RecordsOk;
      assert |log| + |script| == |log + script| == |plan|;
      ops := ops + [op];
      if script != [] {
        var e := script[0];
        EffectKeeps(now, start, log, script, db, db0, txnid);
        RecordsAfterEffect(db, txnid, now, freecnt, at, e);
        now, script, log := Applied(now, e), script[1..], log + [e];
      }
    }

    /** Delete the records that were read into me_pghead, and any reserved for it. */
    method DeleteUsed()
      requires Valid() && Done()
      modifies this`now, this`script, this`log, this`ops, this`at, this`db
      ensures Valid() && Done() && at.seen == now.pglast
      ensures |script| < |old(script)| || (script == old(script) && now == old(now))
      ensures old(at.seen) == old(now.pglast) ==> at == old(at) && now == old(now)
    {
      hide Traced, RecordsOk, Rooms, Played;
      while at.seen < now.pglast
        invariant Valid() && Done()
        invariant |script| < |old(script)| || (script == old(script) && now == old(now))
        invariant old(at.seen) == old(now.pglast) ==> at == old(at) && now == old(now)
        decreases |db|
      {
        SomeRecord(db, txnid, now, freecnt, at);
        var key := FirstFrom(db.Keys, 0);
        DeletedRecord(db, db0, txnid, start, log, script, now, freecnt, at, key);
        at := Place(key, key, 0, 0);
        RoomsDeleted(db, key);
        PlayedOne(Rooms(db0), ops, Del(key));
        db := db - {key};
        Operate(Del(key));
      }
      SeenAtMost(db, txnid, now, freecnt, at);
    }

    /** The put of the transaction's record, again if it freed more pages. */
    method RepeatPut() returns (count: nat)
      requires Valid() && |now.freed| > 0 && |log| == if |ops| <= |plan| then |ops| else |plan|
      modifies this`now, this`script, this`log, this`ops
      ensures Valid() && |log| == if |ops| <= |plan| then |ops| else |plan|
      ensures count == |now.freed| > 0 && Puts(old(ops), ops, txnid) && ops[|ops| - 1] == Put(txnid, count)
      ensures |script| < |old(script)| || (script == old(script) && now == old(now) && count == |old(now.freed)|)
    {
      hide Traced, RecordsOk;
      count := |now.freed|;
      Operate(Put(txnid, count));
      while count < |now.freed|
        invariant Valid() && 0 < count <= |now.freed|
        invariant |log| == if |ops| <= |plan| then |ops| else |plan|
        invariant Puts(old(ops), ops, txnid) && ops[|ops| - 1] == Put(txnid, count)
        invariant |script| < |old(script)| || (script == old(script) && now == old(now) && count == |now.freed|)
        decreases |script|, |now.freed| - count
      {
        count := |now.freed|;
        Operate(Put(txnid, count));
      }
    }

    /** Save the list of pages freed by this transaction to its record, again if that freed more. */
    method SaveFreed()
      requires Valid() && Done() && freecnt < |now.freed|
      modifies this`now, this`script, this`log, this`ops, this`freecnt, this`db
      ensures Valid() && Done() && freecnt == |now.freed|
      ensures old(ops) < ops && (ops[|old(ops)|] == Touch <==> old(freecnt) == 0) && ops[|ops| - 1] == Put(txnid, freecnt)
      ensures |script| < |old(script)| || (script == old(script) && freecnt == |old(now.freed)| && now == old(now).(freed := now.freed))
    {
      hide Traced, RecordsOk, Rooms, Played;
      if freecnt == 0 {
        PlayedOne(Rooms(db0), ops, Touch);
        Operate(Touch);
      }
      ghost var before := ops;
      var count := RepeatPut();
      PutsPlayed(Rooms(db0), before, ops, txnid);
      TracedBounds(now, start, log, script, db, db0, txnid);
      FreedOk(now);
      var sorted := SortIds(now.freed);
      OwnSaved(db, db0, txnid, start, log, script, now, freecnt, at, sorted);
      RoomsPut(db, txnid, count, sorted);
      now := now.(freed := sorted);
      db := db[txnid := Record(count, sorted)];
      freecnt := count;
    }

    /** Reserve room for the reclaimed and loose pages; done when there is enough. */
    method Reserve() returns (done: bool)
      requires Valid() && Done() && at.seen == now.pglast && more >= 0
      modifies this`now, this`script, this`log, this`ops, this`more, this`at, this`db
      ensures Valid() && Done() && -1 <= more <= old(more)
      ensures var extra := old(at).totalRoom - |old(now).pghead| - |old(now).loose|;
              && more == (if extra > 0 then old(more) - 1 else old(more)) && (done <==> extra == 0 || (extra > 0 && more < 0))
      ensures done ==> now == old(now) && script == old(script) && at == old(at) && at.totalRoom >= |now.pghead| + |now.loose|
      ensures !done ==> more >= 0
      ensures done || |script| < |old(script)| || (script == old(script) && now == old(now) && at.seen == now.pglast)
      ensures done || |script| < |old(script)| || more < old(more) || Closer(at, old(at), |now.pghead| + |now.loose|, maxfree)
    {
      hide Traced, RecordsOk, Reserved, ListsOk, Closer, NextPlace, Rooms, Played;
      var mopLen := |now.pghead| + |now.loose|;
      TracedBounds(now, start, log, script, db, db0, txnid);
      NothingToReserve(db, txnid, now, freecnt, at);
      if at.totalRoom >= mopLen {
        if at.totalRoom == mopLen { return true; }
        more := more - 1;
        if more < 0 { return true; }
      }
      ReservedNext(db, now.pglast, at, mopLen, maxfree);
      if at.totalRoom < mopLen { LagShrinks(at, mopLen, maxfree); }
      var n := NextPlace(at, mopLen, maxfree);
      RecordsReserved(db, db0, txnid, start, log, script, now, freecnt, at, n);
      RoomsPut(db, n.headId, n.headRoom, []);
      PlayedOne(Rooms(db0), ops, Put(n.headId, n.headRoom));
      at := n;
      db := db[n.headId := Record(n.headRoom, [])];
      Operate(Put(n.headId, n.headRoom));
      return false;
    }

    /** The loop of mdb_freelist_save: it ends once the operations leave the lists alone for long enough. */
    method Settle()
      requires Valid() && Done() && more >= 0
      modifies this`now, this`script, this`log, this`ops, this`more, this`at, this`db, this`freecnt
      ensures Valid() && Done() && at.seen == now.pglast && freecnt == |now.freed|
      ensures at.totalRoom >= |now.pghead| + |now.loose| && |script| <= |old(script)|
      ensures at.totalRoom == |now.pghead| + |now.loose| || more < 0
    {
      hide Traced, RecordsOk, Lag, Rooms, Played;
      while true
        invariant Valid() && Done() && more >= 0 && |script| <= |old(script)|
        decreases |script|, if at.seen == now.pglast then 0 else 1, if freecnt < |now.freed| then 1 else 0,
                  more, at.headId, Lag(at, |now.pghead| + |now.loose|, maxfree)
      {
        DeleteUsed();
        if freecnt < |now.freed| {
          SaveFreed();
        } else {
          var done := Reserve();
          if done { SavedAll(db, txnid, now, freecnt, at); return; }
        }
      }
    }

    /** Once there is room enough, the reclaimed and loose pages go to the records reserved for them. */
    method WriteBack()
      requires Valid() && at.seen == now.pglast && freecnt == |now.freed| && at.totalRoom >= |now.pghead| + |now.loose|
      modifies this`now, this`db
      ensures now.pglast == old(now.pglast) && now.freed == old(now.freed) && now.loose == []
      ensures Descending(now.pghead) && Descending(now.freed)
      ensures multiset(now.pghead) == multiset(old(now.pghead)) + multiset(old(now.loose))
      ensures if now.freed == [] then txnid !in db else txnid in db && db[txnid].ids == now.freed
      ensures exists h: nat :: (forall k: nat :: k <= now.pglast ==> (k in db <==> h <= k)) && Stored(db, h, now.pglast) == now.pghead
      ensures Later(db, db0, now.pglast, txnid)
    {
      hide Traced, RecordsOk, Stored, Room, Own, Later, After, AllIds, Descending, Opening;
      TracedLists(now, start, log, script, db, db0, txnid);
      ghost var h := FirstReserved(db, txnid, now, freecnt, at);
      var mop := ReturnLoose(now.pghead, now.loose);
      now := now.(pghead := mop[1..mop[0] + 1], loose := []);
      assert now.pghead == List(mop, 0);
      ghost var reserved := db;
      if mop[0] > 0 {
        db := Fill(db, mop, h, now.pglast);
      } else {
        NothingReserved(db, h, now.pglast);
      }
      OwnRecord(reserved, txnid, now.freed, freecnt);
      LaterSame(reserved, db, db0, now.pglast, txnid);
    }

    /** All of mdb_freelist_save but its last part: the lists are as the operations left them. */
    method SettleLists()
      requires Valid() && Done() && ops == [] && more == 1 && freecnt == 0 && now.pglast == start.pglast
      modifies this`now, this`script, this`log, this`ops, this`more, this`at, this`db, this`freecnt
      ensures Valid() && at.seen == now.pglast && freecnt == |now.freed| && at.totalRoom >= |now.pghead| + |now.loose|
      ensures log + script == plan && |log| == if |ops| <= |plan| then |ops| else |plan|
      ensures given.pglast == 0 ==> multiset(now.freed) == multiset(given.freed) + multiset(given.loose) + FreedBy(log)
      ensures given.pglast > 0 ==> multiset(now.freed) == multiset(given.freed) + FreedBy(log)
      ensures log != [] ==> var e := log[|log| - 1]; now.pghead == e.pghead && now.pglast == e.pglast && now.loose == e.loose
      ensures log == [] ==> now.pglast == given.pglast
      ensures log == [] ==> multiset(now.pghead) + multiset(now.loose) + multiset(now.freed) ==
                            multiset(given.pghead) + multiset(given.freed) + multiset(given.loose)
      ensures given.pglast > 0 && plan != [] ==> log != []
    {
      hide Traced, RecordsOk, After, FreedBy, Opening, Rooms, Played;
      Opened(given);
      if now.pglast > 0 {
        PlayedOne(Rooms(db0), ops, Touch);
        Operate(Touch);
      }
      assert given.pglast > 0 && plan != [] ==> |script| < |plan|;
      Settle();
      assert |log| + |script| == |log + script| == |plan|;
      SettledLists(now, given, log, script, db, db0, txnid);
    }

    /**
     mdb_freelist_save. Afterwards the records up to me_pglast hold exactly the reclaimed and loose
     pages, the transaction's own record exactly the pages it freed, and later records are untouched.
     The pages freed are those the caller freed, with its loose pages if there is no reclaimed list,
     and those the operations freed; the reclaimed and loose ones are as the last operation left them.
     */
    method Save()
      requires Valid() && Done() && ops == [] && more == 1 && freecnt == 0 && now.pglast == start.pglast
      modifies this
      ensures |log| == if |ops| <= |plan| then |ops| else |plan|
      ensures log + script == plan && now.loose == [] && Descending(now.pghead) && Descending(now.freed)
      ensures given.pglast == 0 ==> multiset(now.freed) == multiset(given.freed) + multiset(given.loose) + FreedBy(log)
      ensures given.pglast > 0 ==> multiset(now.freed) == multiset(given.freed) + FreedBy(log)
      ensures log != [] ==> now.pglast == log[|log| - 1].pglast
      ensures log != [] ==> multiset(now.pghead) == multiset(log[|log| - 1].pghead) + multiset(log[|log| - 1].loose)
      ensures log == [] ==> now.pglast == given.pglast
      ensures log == [] ==> multiset(now.pghead) + multiset(now.freed) ==
                            multiset(given.pghead) + multiset(given.freed) + multiset(given.loose)
      ensures given.pglast > 0 && plan != [] ==> log != []
      ensures if now.freed == [] then txnid !in db else txnid in db && db[txnid].ids == now.freed
      ensures exists h: nat :: (forall k: nat :: k <= now.pglast ==> (k in db <==> h <= k)) && Stored(db, h, now.pglast) == now.pghead
      ensures Later(db, db0, now.pglast, txnid)
    {
      hide Traced, RecordsOk, Stored, Room, Own, Later, After, AllIds, Descending, FreedBy, Opening, Rooms, Played, Valid, Done;
      SettleLists();
      WriteBack();
    }
  }

  lemma TracedLists(now: Lists, start: Lists, log: seq<Effect>, script: seq<Effect>,
                    db: map<nat, Record>, db0: map<nat, Record>, txnid: nat)
    requires Traced(now, start, log, script, db, db0, txnid)
    ensures var l := After(start, log);
            now.pghead == l.pghead && now.pglast == l.pglast && now.loose == l.loose && multiset(now.freed) == multiset(l.freed)
    ensures ListsOk(now) && now.pglast < txnid && Later(db, db0, now.pglast, txnid)
  {
  }

  /** The lists when the loop has ended, from those the caller passed. */
  lemma SettledLists(now: Lists, given: Lists, log: seq<Effect>, script: seq<Effect>,
                     db: map<nat, Record>, db0: map<nat, Record>, txnid: nat)
    requires Traced(now, Opening(given), log, script, db, db0, txnid)
    ensures given.pglast == 0 ==> multiset(now.freed) == multiset(given.freed) + multiset(given.loose) + FreedBy(log)
    ensures given.pglast > 0 ==> multiset(now.freed) == multiset(given.freed) + FreedBy(log)
    ensures log != [] ==> var e := log[|log| - 1]; now.pghead == e.pghead && now.pglast == e.pglast && now.loose == e.loose
    ensures log == [] ==> now.pghead == given.pghead && now.pglast == given.pglast
    ensures log == [] ==> multiset(now.pghead) + multiset(now.loose) + multiset(now.freed) ==
                          multiset(given.pghead) + multiset(given.freed) + multiset(given.loose)
  {
    hide ScriptOk, Later;
    AfterAll(Opening(given), log);
    Opened(given);
  }

  lemma FirstReserved(db: map<nat, Record>, txnid: nat, now: Lists, freecnt: nat, at: Place) returns (h: nat)
    requires RecordsOk(db, txnid, now, freecnt, at) && at.seen == now.pglast
    ensures forall k: nat :: k <= now.pglast ==> (k in db <==> h <= k)
    ensures forall k: nat :: k < h ==> k !in db || k > now.pglast
    ensures forall k :: h <= k <= now.pglast ==> k in db && db[k].ids == []
    ensures Room(db, h, now.pglast) == at.totalRoom
    ensures at.totalRoom > 0 ==> h <= now.pglast
    ensures Own(db, txnid, now.freed, freecnt)
  {
    h := if at.headId in db then at.headId else at.headId + 1;
  }

  lemma {:induction false} NothingReserved(db: map<nat, Record>, h: nat, p: nat)
    requires forall k :: h <= k <= p ==> k in db && db[k].ids == []
    ensures Stored(db, h, p) == []
  {
    if h <= p { StoredEmptyAbove(db, h, h - 1, p); }
  }

  lemma OwnRecord(db: map<nat, Record>, txnid: nat, freed: seq<nat>, freecnt: nat)
    requires Own(db, txnid, freed, freecnt) && freecnt == |freed|
    ensures if freed == [] then txnid !in db else txnid in db && db[txnid].ids == freed
    ensures Descending(freed)
  {
    assert freed[..freecnt] == freed;
  }

  lemma LaterSame(db: map<nat, Record>, db': map<nat, Record>, db0: map<nat, Record>, pglast: nat, txnid: nat)
    requires Later(db, db0, pglast, txnid)
    requires forall k :: pglast < k ==> (k in db <==> k in db') && (k in db ==> db[k] == db'[k])
    ensures Later(db', db0, pglast, txnid)
  {
  }

  lemma SavedAll(db: map<nat, Record>, txnid: nat, now: Lists, freecnt: nat, at: Place)
    requires RecordsOk(db, txnid, now, freecnt, at)
    ensures freecnt <= |now.freed|
  {
  }

  lemma FreedOk(now: Lists)
    requires ListsOk(now)
    ensures AllIds(now.freed) && 2 * |now.freed| <= IdSort.INT_MAX
  {
  }

  lemma SomeRecord(db: map<nat, Record>, txnid: nat, now: Lists, freecnt: nat, at: Place)
    requires RecordsOk(db, txnid, now, freecnt, at) && at.seen < now.pglast
    ensures now.pglast in db
  {
  }

  lemma SeenAtMost(db: map<nat, Record>, txnid: nat, now: Lists, freecnt: nat, at: Place)
    requires RecordsOk(db, txnid, now, freecnt, at)
    ensures at.seen <= now.pglast
  {
  }

  lemma {:induction false} DeletedRecord(db: map<nat, Record>, db0: map<nat, Record>, txnid: nat, start: Lists, log: seq<Effect>,
                                         script: seq<Effect>, now: Lists, freecnt: nat, at: Place, key: nat)
    requires Traced(now, start, log, script, db, db0, txnid) && RecordsOk(db, txnid, now, freecnt, at)
    requires at.seen < now.pglast && key in db && forall j :: j in db ==> key <= j
    ensures Traced(now, start, log, script, db - {key}, db0, txnid)
    ensures RecordsOk(db - {key}, txnid, now, freecnt, Place(key, key, 0, 0))
  {
    hide ScriptOk, After, Later, Own, Reserved;
    TracedBounds(now, start, log, script, db, db0, txnid);
    FirstDeleted(db, db0, key, now.pglast, txnid, now.freed, freecnt);
  }
}
