/** What mdb_freelist_save leaves behind is what the commit step of the version model asks for. */
module FreelistRecords {
  import opened FreelistSave
  import Mvcc

  /** The records of the free database as pairs of a transaction and a page it freed. */
  ghost function Pairs(db: map<nat, Record>): set<(Mvcc.TxnId, Mvcc.Pgno)> {
    set k, i | k in db && 0 <= i < |db[k].ids| :: (k, db[k].ids[i])
  }

  lemma {:induction false} InPairs(db: map<nat, Record>, k: nat, p: nat)
    ensures (k, p) in Pairs(db) <==> k in db && p in db[k].ids
  {
    if k in db && p in db[k].ids {
      var i :| 0 <= i < |db[k].ids| && db[k].ids[i] == p;
      assert (k, db[k].ids[i]) in Pairs(db);
    }
  }

  /** A page is stored if and only if one of the records holds it. */
  lemma {:induction false} InStored(db: map<nat, Record>, h: nat, p: int, x: nat)
    requires forall k :: h <= k <= p ==> k in db
    ensures x in Stored(db, h, p) <==> exists k :: h <= k <= p && x in db[k].ids
    decreases p + 1 - h
  {
    hide Stored;
    StoredStep(db, h, p, x);
    if h <= p {
      InStored(db, h, p - 1, x);
    }
  }

  lemma StoredStep(db: map<nat, Record>, h: nat, p: int, x: nat)
    requires forall k :: h <= k <= p ==> k in db
    ensures h > p ==> Stored(db, h, p) == []
    ensures h <= p ==> (x in Stored(db, h, p) <==> x in db[p].ids || x in Stored(db, h, p - 1))
  {
  }

  lemma TwiceInSum(a: seq<nat>, b: seq<nat>, x: nat)
    ensures multiset(a + b)[x] == multiset(a)[x] + multiset(b)[x]
    ensures x in a && x in b ==> multiset(a + b)[x] >= 2
  {
    assert x in a ==> x in multiset(a);
    assert x in b ==> x in multiset(b);
  }

  /** A page in two records is stored twice. */
  lemma {:induction false} StoredTwice(db: map<nat, Record>, h: nat, p: int, j: nat, k: nat, x: nat)
    requires forall k :: h <= k <= p ==> k in db
    requires h <= j < k <= p && x in db[j].ids && x in db[k].ids
    ensures multiset(Stored(db, h, p))[x] >= 2
    decreases p + 1 - h
  {
    var rest := Stored(db, h, p - 1);
    assert Stored(db, h, p) == db[p].ids + rest;
    TwiceInSum(db[p].ids, rest, x);
    if k == p {
      InStored(db, h, p - 1, x);
    } else {
      StoredTwice(db, h, p - 1, j, k, x);
    }
  }

  /**
   If no page is reclaimed twice, the outcome of FreelistSave.Saver.Save satisfies the condition
   on the saved free list under which the version model lets a transaction commit.
   */
  lemma {:induction false} SavedIsSaved(w: Mvcc.Txn, db: map<nat, Record>, h: nat, pghead: seq<nat>, freed: seq<nat>)
    requires w.loose == {} && w.pglast < w.id && 0 !in db
    requires (forall p :: p in w.freed <==> p in freed) && (forall p :: p in w.head <==> p in pghead)
    requires forall k: nat :: k <= w.pglast ==> (k in db <==> h <= k)
    requires Stored(db, h, w.pglast) == pghead && forall p :: multiset(pghead)[p] <= 1
    requires if freed == [] then w.id !in db else w.id in db && db[w.id].ids == freed
    ensures Mvcc.FreelistSaved(w, Pairs(db))
  {
    var recs := Pairs(db);
    forall r | r in recs && r.0 <= w.pglast ensures 0 < r.0 && r.1 in w.head {
      InPairs(db, r.0, r.1);
      InStored(db, h, w.pglast, r.1);
    }
    forall p | p in w.head ensures exists r :: r in recs && r.0 <= w.pglast && r.1 == p {
      InStored(db, h, w.pglast, p);
      var k :| h <= k <= w.pglast && p in db[k].ids;
      InPairs(db, k, p);
      assert (k, p) in recs;
    }
    forall r, q | r in recs && q in recs && r.0 <= w.pglast && q.0 <= w.pglast && r.1 == q.1 ensures r == q {
      InPairs(db, r.0, r.1);
      InPairs(db, q.0, q.1);
      if r.0 < q.0 { StoredTwice(db, h, w.pglast, r.0, q.0, r.1); }
      if q.0 < r.0 { StoredTwice(db, h, w.pglast, q.0, r.0, r.1); }
    }
    forall r | r in recs && r.0 == w.id ensures r.1 in w.freed { InPairs(db, r.0, r.1); }
    forall p | p in w.freed ensures (w.id, p) in recs { InPairs(db, w.id, p); }
  }
}
