/** Positions of a cursor on the free database, whose keys are transaction ids. */
module RecordKeys {
  lemma {:induction false} LeastExists(s: set<nat>, x: nat)
    requires x in s
    ensures exists k :: k in s && forall j :: j in s ==> k <= j
    decreases x
  {
    if y :| y in s && y < x { LeastExists(s, y); }
  }

  /** mdb_cursor_first, MDB_SET_RANGE and MDB_NEXT: the least key from some key on. */
  method FirstFrom(keys: set<nat>, from: nat) returns (k: nat)
    requires exists j :: j in keys && from <= j
    ensures k in keys && from <= k && forall j :: j in keys && from <= j ==> k <= j
  {
    var s := set j | j in keys && from <= j;
    ghost var x :| x in keys && from <= x;
    assert x in s;
    LeastExists(s, x);
    k :| k in s && forall j :: j in s ==> k <= j;
    assert forall j :: j in keys && from <= j ==> j in s;
  }
}
