/** Properties of the store: the facade operations, the inverse that each
    write captures, the retention window of undo steps and what undoing a
    step does to the tables. */
module StoreFacts {
  import opened Wrappers
  import opened Values
  import opened Store

  // -----------------------------------------------------------------------
  // A sorted table is determined by its set of rows

  function Elems(rows: seq<Entry>): set<Entry> {
    set x | x in rows
  }

  function Rowids(rows: seq<Entry>): set<int> {
    set x | x in rows :: x.rowid
  }

  lemma FirstInElems(a: seq<Entry>)
    ensures |a| > 0 ==> a[0] in Elems(a)
  {
  }

  lemma TailElems(a: seq<Entry>)
    requires SortedByRowid(a) && |a| > 0
    ensures Elems(a[1..]) == Elems(a) - {a[0]}
  {
    forall x | x in Elems(a[1..]) ensures x in Elems(a) && x != a[0] {
      var k :| 0 <= k < |a[1..]| && a[1..][k] == x;
      assert a[k + 1] == x && a[k + 1].rowid > a[0].rowid;
    }
    forall x | x in Elems(a) && x != a[0] ensures x in Elems(a[1..]) {
      var k :| 0 <= k < |a| && a[k] == x;
      assert a[1..][k - 1] == x;
    }
  }

  /** The first row of a sorted table is the one with the least rowid. */
  lemma FirstIsLeast(a: seq<Entry>, x: Entry)
    requires SortedByRowid(a) && |a| > 0 && x in Elems(a)
    ensures a[0].rowid <= x.rowid
    ensures x.rowid == a[0].rowid ==> x == a[0]
  {
    var k :| 0 <= k < |a| && a[k] == x;
    if k > 0 {
      assert a[0].rowid < a[k].rowid;
    }
  }

  lemma {:induction false} SortedDeterminedByElems(a: seq<Entry>, b: seq<Entry>)
    requires SortedByRowid(a) && SortedByRowid(b)
    requires Elems(a) == Elems(b)
    ensures a == b
    decreases |a|
  {
    if |a| == 0 {
      FirstInElems(b);
    } else {
      assert a[0] in Elems(b);
      assert |b| > 0;
      assert b[0] in Elems(a);
      FirstIsLeast(a, b[0]);
      FirstIsLeast(b, a[0]);
      TailElems(a);
      TailElems(b);
      SortedDeterminedByElems(a[1..], b[1..]);
      assert a == [a[0]] + a[1..] && b == [b[0]] + b[1..];
    }
  }

  lemma RowidsFollowElems(a: seq<Entry>, b: seq<Entry>, added: set<Entry>, removed: set<Entry>)
    requires Elems(a) == Elems(b) + added - removed
    ensures Rowids(a) == set x | x in Elems(b) + added - removed :: x.rowid
  {
  }

  lemma InsertSortedSorted(rows: seq<Entry>, e: Entry)
    requires SortedByRowid(rows) && e.rowid !in Rowids(rows)
    ensures SortedByRowid(InsertSorted(rows, e))
  {
    var p := InsertPos(rows, e.rowid);
    var r := InsertSorted(rows, e);
    assert r == rows[..p] + [e] + rows[p..];
    forall i | p <= i < |rows| ensures rows[i].rowid > e.rowid {
      assert rows[i] in rows;
      if i > p {
        assert rows[p].rowid < rows[i].rowid;
      }
    }
    forall i, j | 0 <= i < j < |r| ensures r[i].rowid < r[j].rowid {
      if j < p {
        assert r[i] == rows[i] && r[j] == rows[j];
      } else if j == p {
        assert r[i] == rows[i];
      } else if i < p {
        assert r[i] == rows[i] && r[j] == rows[j - 1];
      } else if i == p {
        assert r[j] == rows[j - 1];
      } else {
        assert r[i] == rows[i - 1] && r[j] == rows[j - 1];
      }
    }
  }

  lemma InsertSortedElems(rows: seq<Entry>, e: Entry)
    requires SortedByRowid(rows) && e.rowid !in Rowids(rows)
    ensures SortedByRowid(InsertSorted(rows, e))
    ensures Elems(InsertSorted(rows, e)) == Elems(rows) + {e}
    ensures Rowids(InsertSorted(rows, e)) == Rowids(rows) + {e.rowid}
  {
    InsertSortedSorted(rows, e);
    var p := InsertPos(rows, e.rowid);
    var r := InsertSorted(rows, e);
    assert r == rows[..p] + [e] + rows[p..];
    assert Elems(r) == Elems(rows) + {e} by {
      assert forall x :: x in r <==> x in rows[..p] || x == e || x in rows[p..];
      assert forall x :: x in rows <==> x in rows[..p] || x in rows[p..] by {
        assert rows == rows[..p] + rows[p..];
      }
    }
    RowidsFollowElems(r, rows, {e}, {});
  }

  lemma RemoveAtElems(rows: seq<Entry>, k: nat)
    requires SortedByRowid(rows) && k < |rows|
    ensures SortedByRowid(RemoveAt(rows, k))
    ensures Elems(RemoveAt(rows, k)) == Elems(rows) - {rows[k]}
    ensures Rowids(RemoveAt(rows, k)) == Rowids(rows) - {rows[k].rowid}
  {
    RemoveAtSorted(rows, k);
    RemoveAtSet(rows, k);
    RemoveAtRowids(rows, k);
  }

  lemma RemoveAtSorted(rows: seq<Entry>, k: nat)
    requires SortedByRowid(rows) && k < |rows|
    ensures SortedByRowid(RemoveAt(rows, k))
  {
    var r := RemoveAt(rows, k);
    forall i, j | 0 <= i < j < |r| ensures r[i].rowid < r[j].rowid {
      if j < k {
      } else if i < k {
        assert r[j] == rows[j + 1];
      } else {
        assert r[i] == rows[i + 1] && r[j] == rows[j + 1];
      }
    }
  }

  lemma RemoveAtSet(rows: seq<Entry>, k: nat)
    requires SortedByRowid(rows) && k < |rows|
    ensures Elems(RemoveAt(rows, k)) == Elems(rows) - {rows[k]}
  {
    var r := RemoveAt(rows, k);
    forall x | x in Elems(r) ensures x in Elems(rows) && x != rows[k] {
      var i :| 0 <= i < |r| && r[i] == x;
      if i < k {
        assert rows[i] == x && rows[i].rowid < rows[k].rowid;
      } else {
        assert rows[i + 1] == x && rows[i + 1].rowid > rows[k].rowid;
      }
    }
    forall x | x in Elems(rows) && x != rows[k] ensures x in Elems(r) {
      var i :| 0 <= i < |rows| && rows[i] == x;
      if i < k { assert r[i] == x; } else { assert r[i - 1] == x; }
    }
  }

  lemma RemoveAtRowids(rows: seq<Entry>, k: nat)
    requires SortedByRowid(rows) && k < |rows|
    ensures Rowids(RemoveAt(rows, k)) == Rowids(rows) - {rows[k].rowid}
  {
    var r := RemoveAt(rows, k);
    RemoveAtSet(rows, k);
    RowidsFollowElems(r, rows, {}, {rows[k]});
    forall x | x in rows && x != rows[k] ensures x.rowid != rows[k].rowid {
      var i :| 0 <= i < |rows| && rows[i] == x;
      assert i != k;
    }
  }

  /** The row with a given rowid is found wherever it sits. */
  lemma FindRowidOfElem(rows: seq<Entry>, e: Entry)
    requires SortedByRowid(rows) && e in Elems(rows)
    ensures FindRowid(rows, e.rowid).Some? && rows[FindRowid(rows, e.rowid).value] == e
  {
    var i :| 0 <= i < |rows| && rows[i] == e;
  }

  lemma ClashSymmetric(a: Row, b: Row)
    ensures Clash(a, b) <==> Clash(b, a)
  {
  }

  /** Every table of a valid state is sorted. */
  lemma ValidSorted(s: State, t: Table)
    requires Valid(s)
    ensures ValidRows(t, s.tables.Get(t))
  {
  }

  // -----------------------------------------------------------------------
  // Insert

  /** The rowid a successful insert gives its row. */
  function InsertedRowid(s: State, t: Table, image: Row): int
    requires Insert(s, t, image).result.Ok?
  {
    RowidFor(s.tables.Get(t), t, image).value
  }

  /** What a successful insert consists of. */
  lemma InsertUnfold(s: State, t: Table, image: Row)
    requires Insert(s, t, image).result.Ok?
    ensures var rows := s.tables.Get(t);
      var r := InsertedRowid(s, t, image);
      var row := Insert(s, t, image).result.value;
      && |image| == Arity(t) && |row| == Arity(t)
      && row == (if KeyIsRowid(t) then image[0 := Integer(r)] else image)
      && (forall x | x in rows :: !Clash(x.image, row))
      && (t, row) !in s.rejected
      && (KeyIsRowid(t) && image[0].Integer? ==> r == image[0].i)
      && (!KeyIsRowid(t) || image[0].Null? ==> r == FreshRowid(rows))
      && Insert(s, t, image).state
         == Capture(s.(tables := s.tables.Set(t, InsertSorted(rows, Entry(r, row)))), DeleteRowid(t, r))
  {
    var rows := s.tables.Get(t);
    var row := Insert(s, t, image).result.value;
    forall x | x in rows ensures !Clash(x.image, row) {
      var i :| 0 <= i < |rows| && rows[i] == x;
    }
  }

  lemma ValidRowsInsert(t: Table, rows: seq<Entry>, e: Entry)
    requires ValidRows(t, rows) && e.rowid !in Rowids(rows) && WellFormedEntry(t, e)
    requires forall x | x in rows :: !Clash(x.image, e.image)
    ensures ValidRows(t, InsertSorted(rows, e))
  {
    InsertSortedElems(rows, e);
    var rows' := InsertSorted(rows, e);
    forall x, y | x in rows' && y in rows' && x != y
      ensures !Clash(x.image, y.image)
    {
      assert x in Elems(rows') && y in Elems(rows');
      if x == e {
        ClashSymmetric(y.image, e.image);
      }
    }
    forall x | x in rows' ensures WellFormedEntry(t, x) {
      assert x in Elems(rows');
    }
  }

  /** Writing a valid table and capturing one statement for the newest
      step keeps a valid store valid. */
  lemma ValidAfterWrite(s: State, t: Table, rows: seq<Entry>, op: Op)
    requires Valid(s) && ValidRows(t, rows)
    ensures Valid(Capture(s.(tables := s.tables.Set(t, rows)), op))
  {
    var s' := Capture(s.(tables := s.tables.Set(t, rows)), op);
    assert ValidTables(s'.tables);
    forall i | 0 <= i < |s'.statements| && s'.statements[i].stepId.Some?
      ensures s'.statements[i].stepId.value < s'.nextStepId
    {
      if i == |s.statements| {
        assert s'.statements[i].stepId == LastStepId(s);
      } else {
        assert s'.statements[i] == s.statements[i];
      }
    }
  }

  /** The rowid a successful insert takes is not in use. */
  lemma InsertedRowidFresh(s: State, t: Table, image: Row)
    requires Valid(s) && Insert(s, t, image).result.Ok?
    requires KeyIsRowid(t) || (|image| > 0 && !image[0].Null?)
    ensures InsertedRowid(s, t, image) !in Rowids(s.tables.Get(t))
  {
    var rows := s.tables.Get(t);
    var r := InsertedRowid(s, t, image);
    var row := Insert(s, t, image).result.value;
    InsertUnfold(s, t, image);
    ValidSorted(s, t);
    forall x | x in rows ensures x.rowid != r {
      assert WellFormedEntry(t, x) && !Clash(x.image, row);
    }
  }

  /** A successful insert adds exactly one row, under a rowid not in use,
      keeps the non-key fields it was given, leaves the other tables alone
      and appends one statement, anchored to the newest step, that deletes
      that rowid. A valid store stays valid. */
  lemma InsertEffect(s: State, t: Table, image: Row)
    requires Valid(s) && Insert(s, t, image).result.Ok?
    requires KeyIsRowid(t) || (|image| > 0 && !image[0].Null?)
    ensures var o := Insert(s, t, image);
      var r := InsertedRowid(s, t, image);
      var row := o.result.value;
      && r !in Rowids(s.tables.Get(t))
      && Elems(o.state.tables.Get(t)) == Elems(s.tables.Get(t)) + {Entry(r, row)}
      && Rowids(o.state.tables.Get(t)) == Rowids(s.tables.Get(t)) + {r}
      && (forall u :: u != t ==> o.state.tables.Get(u) == s.tables.Get(u))
      && o.state.statements == s.statements + [Captured(LastStepId(s), DeleteRowid(t, r))]
      && |row| == Arity(t) && row[1..] == image[1..]
      && (KeyIsRowid(t) ==> row[0] == Integer(r)) && (!KeyIsRowid(t) ==> row == image)
      && Valid(o.state)
  {
    var rows := s.tables.Get(t);
    var r := InsertedRowid(s, t, image);
    var row := Insert(s, t, image).result.value;
    InsertUnfold(s, t, image);
    InsertedRowidFresh(s, t, image);
    ValidSorted(s, t);
    InsertSortedElems(rows, Entry(r, row));
    assert WellFormedEntry(t, Entry(r, row));
    ValidRowsInsert(t, rows, Entry(r, row));
    ValidAfterWrite(s, t, InsertSorted(rows, Entry(r, row)), DeleteRowid(t, r));
    assert row[1..] == image[1..];
  }

  // -----------------------------------------------------------------------
  // Delete and update

  function ImageSet(rows: seq<Entry>): set<Row> {
    set x | x in rows :: x.image
  }

  /** Two distinct rows of a valid table never share a key. */
  lemma KeyIdentifiesRow(t: Table, rows: seq<Entry>, x: Entry, y: Entry)
    requires ValidRows(t, rows) && x in rows && y in rows
    requires x.image[0] == y.image[0]
    ensures x == y
  {
    assert WellFormedEntry(t, x);
  }

  /** The row `FindKey` lands on is the one row carrying that key. */
  lemma FindKeyOfRow(t: Table, rows: seq<Entry>, x: Entry)
    requires ValidRows(t, rows) && x in rows
    ensures FindKey(rows, x.image[0]).Some?
    ensures rows[FindKey(rows, x.image[0]).value] == x
  {
    var i :| 0 <= i < |rows| && rows[i] == x;
    assert WellFormedEntry(t, x);
    var k := FindKey(rows, x.image[0]).value;
    KeyIdentifiesRow(t, rows, rows[k], x);
  }

  lemma ValidRowsRemove(t: Table, rows: seq<Entry>, k: nat)
    requires ValidRows(t, rows) && k < |rows|
    ensures ValidRows(t, RemoveAt(rows, k))
  {
    RemoveAtElems(rows, k);
    var r := RemoveAt(rows, k);
    forall x | x in r ensures x in rows {
      assert x in Elems(r);
    }
  }

  /** A delete by key of a stored row removes exactly that row, capturing
      its re-insert first, and keeps the store valid. */
  lemma DeleteByKeyEffect(s: State, t: Table, x: Entry)
    requires Valid(s) && x in s.tables.Get(t)
    ensures var o := DeleteByKey(s, t, x.image[0]);
      && o.result == Ok(1)
      && Elems(o.state.tables.Get(t)) == Elems(s.tables.Get(t)) - {x}
      && Rowids(o.state.tables.Get(t)) == Rowids(s.tables.Get(t)) - {x.rowid}
      && (forall u :: u != t ==> o.state.tables.Get(u) == s.tables.Get(u))
      && o.state.statements == s.statements + [Captured(LastStepId(s), InsertImage(t, x.image))]
      && Valid(o.state)
  {
    var rows := s.tables.Get(t);
    ValidSorted(s, t);
    FindKeyOfRow(t, rows, x);
    var k := FindKey(rows, x.image[0]).value;
    RemoveAtElems(rows, k);
    ValidRowsRemove(t, rows, k);
    ValidAfterWrite(s, t, RemoveAt(rows, k), InsertImage(t, x.image));
    assert DeleteByKey(s, t, x.image[0]).state
      == Capture(s.(tables := s.tables.Set(t, RemoveAt(rows, k))), InsertImage(t, x.image));
  }

  /** A key that no row carries deletes nothing: the change count is 0. */
  lemma DeleteByKeyAbsent(s: State, t: Table, key: Value)
    requires forall x | x in s.tables.Get(t) && |x.image| > 0 :: x.image[0] != key
    ensures DeleteByKey(s, t, key) == Outcome(s, Ok(0))
  {
    FindKeyInRows(s.tables.Get(t), key);
  }

  lemma FindKeyInRows(rows: seq<Entry>, key: Value)
    ensures FindKey(rows, key).Some? ==> rows[FindKey(rows, key).value] in rows
  {
  }

  /** Deleting the same key twice: 1, then 0. */
  lemma DeleteTwice(s: State, t: Table, x: Entry)
    requires Valid(s) && x in s.tables.Get(t)
    ensures DeleteByKey(s, t, x.image[0]).result == Ok(1)
    ensures var o := DeleteByKey(s, t, x.image[0]);
      DeleteByKey(o.state, t, x.image[0]) == Outcome(o.state, Ok(0))
  {
    var o := DeleteByKey(s, t, x.image[0]);
    DeleteByKeyEffect(s, t, x);
    forall y | y in o.state.tables.Get(t) ensures y.image[0] != x.image[0] {
      assert y in Elems(o.state.tables.Get(t));
      ValidSorted(s, t);
      if y.image[0] == x.image[0] {
        KeyIdentifiesRow(t, s.tables.Get(t), x, y);
      }
    }
    DeleteByKeyAbsent(o.state, t, x.image[0]);
  }

  /** An insert that meets no key, no UNIQUE clash and no other constraint
      succeeds and places its row in rowid order. */
  lemma InsertAccepted(s: State, t: Table, image: Row, rowid: int)
    requires |image| == Arity(t) && RowidFor(s.tables.Get(t), t, image) == Ok(rowid)
    requires var stored := if KeyIsRowid(t) then image[0 := Integer(rowid)] else image;
      (forall y | y in s.tables.Get(t) :: !Clash(y.image, stored)) && (t, stored) !in s.rejected
    ensures var stored := if KeyIsRowid(t) then image[0 := Integer(rowid)] else image;
      var o := Insert(s, t, image);
      && o.result == Ok(stored)
      && o.state.tables == s.tables.Set(t, InsertSorted(s.tables.Get(t), Entry(rowid, stored)))
  {
    var rows := s.tables.Get(t);
    var stored := if KeyIsRowid(t) then image[0 := Integer(rowid)] else image;
    assert !ConflictExcept(rows, stored, -1) by {
      forall i | 0 <= i < |rows| ensures !Clash(rows[i].image, stored) {
        assert rows[i] in rows;
      }
    }
  }

  /** The table after a delete by key, for the re-insert. */
  lemma AfterDelete(s: State, t: Table, x: Entry)
    requires Valid(s) && x in s.tables.Get(t)
    ensures var rows' := DeleteByKey(s, t, x.image[0]).state.tables.Get(t);
      && SortedByRowid(rows')
      && x.rowid !in Rowids(rows')
      && Elems(rows') + {x} == Elems(s.tables.Get(t))
      && (forall y | y in rows' :: !Clash(y.image, x.image))
  {
    var s' := DeleteByKey(s, t, x.image[0]).state;
    DeleteByKeyEffect(s, t, x);
    ValidSorted(s, t);
    ValidSorted(s', t);
    RemovedRow(t, s.tables.Get(t), s'.tables.Get(t), x);
  }

  /** Rows that are valid rows less `x` are sorted, lack `x`'s rowid and
      hold nothing that clashes with `x`. */
  lemma RemovedRow(t: Table, rows: seq<Entry>, rows': seq<Entry>, x: Entry)
    requires ValidRows(t, rows) && ValidRows(t, rows') && x in rows
    requires Elems(rows') == Elems(rows) - {x} && Rowids(rows') == Rowids(rows) - {x.rowid}
    ensures SortedByRowid(rows')
      && x.rowid !in Rowids(rows')
      && Elems(rows') + {x} == Elems(rows)
      && (forall y | y in rows' :: !Clash(y.image, x.image))
  {
    assert x in Elems(rows);
    forall y | y in rows' ensures !Clash(y.image, x.image) {
      assert y in Elems(rows');
    }
  }

  /** Writing back the rows a table already holds changes nothing. */
  lemma SetSame(ts: Tables, t: Table)
    ensures ts.Set(t, ts.Get(t)) == ts
  {
  }

  lemma ExecuteInsertImage(s: State, t: Table, image: Row)
    ensures Execute(s, InsertImage(t, image)).state == Insert(s, t, image).state
    ensures Execute(s, InsertImage(t, image)).result.Ok? <==> Insert(s, t, image).result.Ok?
  {
  }

  /** Running the re-insert a delete captured puts the row back, under its
      own rowid, in a table keyed by rowid. Constraints the model does not
      see (the parent of a foreign key being gone) may refuse it. */
  lemma DeleteThenInverse(s: State, t: Table, x: Entry)
    requires Valid(s) && KeyIsRowid(t) && x in s.tables.Get(t) && (t, x.image) !in s.rejected
    ensures var o := DeleteByKey(s, t, x.image[0]);
      var e := Execute(o.state, InsertImage(t, x.image));
      e.result.Ok? && e.state.tables == s.tables
  {
    var rows := s.tables.Get(t);
    var s' := DeleteByKey(s, t, x.image[0]).state;
    var rows' := s'.tables.Get(t);
    assert s'.tables == s.tables.Set(t, rows') by {
      DeleteByKeyEffect(s, t, x);
    }
    AfterDelete(s, t, x);
    assert x.image[0 := Integer(x.rowid)] == x.image by {
      ValidSorted(s, t);
      assert WellFormedEntry(t, x);
    }
    InsertAccepted(s', t, x.image, x.rowid);
    assert InsertSorted(rows', x) == rows by {
      ValidSorted(s, t);
      InsertSortedElems(rows', x);
      SortedDeterminedByElems(InsertSorted(rows', x), rows);
    }
    SetSame(s.tables, t);
    ExecuteInsertImage(s', t, x.image);
  }

  /** In `accounts`, whose rowid is not part of the row, the re-insert
      brings back the same set of rows under a fresh rowid. */
  lemma DeleteThenInverseAccounts(s: State, x: Entry)
    requires Valid(s) && x in s.tables.accounts && (Accounts, x.image) !in s.rejected
    ensures var o := DeleteByKey(s, Accounts, x.image[0]);
      var e := Execute(o.state, InsertImage(Accounts, x.image));
      && e.result.Ok?
      && ImageSet(e.state.tables.accounts) == ImageSet(s.tables.accounts)
      && e.state.tables.transactions == s.tables.transactions
      && e.state.tables.tagRules == s.tables.tagRules
  {
    var rows := s.tables.accounts;
    var s' := DeleteByKey(s, Accounts, x.image[0]).state;
    var rows' := s'.tables.accounts;
    assert s'.tables == s.tables.Set(Accounts, rows') by {
      DeleteByKeyEffect(s, Accounts, x);
    }
    AfterDelete(s, Accounts, x);
    var rowid := FreshRowid(rows');
    FreshRowidAbsent(rows');
    assert |x.image| == Arity(Accounts) by {
      ValidSorted(s, Accounts);
      assert WellFormedEntry(Accounts, x);
    }
    InsertAccepted(s', Accounts, x.image, rowid);
    ReinsertImageSet(rows, rows', x, Entry(rowid, x.image));
    ExecuteInsertImage(s', Accounts, x.image);
  }

  lemma FreshRowidAbsent(rows: seq<Entry>)
    requires SortedByRowid(rows)
    ensures FreshRowid(rows) !in Rowids(rows)
  {
    forall y | y in rows ensures y.rowid != FreshRowid(rows) {
      var i :| 0 <= i < |rows| && rows[i] == y;
    }
  }

  /** Putting back, under a fresh rowid, the image of the row a delete took
      out gives back the images the table held. */
  lemma ReinsertImageSet(rows: seq<Entry>, rows': seq<Entry>, x: Entry, e: Entry)
    requires SortedByRowid(rows') && e.rowid !in Rowids(rows')
    requires Elems(rows') + {x} == Elems(rows) && e.image == x.image
    ensures ImageSet(InsertSorted(rows', e)) == ImageSet(rows)
  {
    InsertSortedElems(rows', e);
    var rows'' := InsertSorted(rows', e);
    assert forall y :: y in rows'' <==> y in Elems(rows'');
    assert forall y :: y in rows <==> y in Elems(rows);
    assert forall y :: y in rows' <==> y in Elems(rows');
  }

  /** Running the delete an insert captured takes the row out again; the
      delete's own trigger captures a re-insert of it. */
  lemma InsertThenInverse(s: State, t: Table, image: Row)
    requires Valid(s) && Insert(s, t, image).result.Ok?
    requires KeyIsRowid(t) || (|image| > 0 && !image[0].Null?)
    ensures var o := Insert(s, t, image);
      var e := Execute(o.state, DeleteRowid(t, InsertedRowid(s, t, image)));
      && e.result.Ok? && e.state.tables == s.tables
      && e.state.statements == o.state.statements + [Captured(LastStepId(s), InsertImage(t, o.result.value))]
  {
    var rows := s.tables.Get(t);
    var r := InsertedRowid(s, t, image);
    var o := Insert(s, t, image);
    var row := o.result.value;
    var rows' := InsertSorted(rows, Entry(r, row));
    assert o.state.tables == s.tables.Set(t, rows') by {
      InsertUnfold(s, t, image);
    }
    InsertedRowidFresh(s, t, image);
    ValidSorted(s, t);
    InsertSortedElems(rows, Entry(r, row));
    FindRowidOfElem(rows', Entry(r, row));
    var k := FindRowid(rows', r).value;
    assert RemoveAt(rows', k) == rows by {
      RemoveAtElems(rows', k);
      assert Entry(r, row) !in Elems(rows);
      SortedDeterminedByElems(RemoveAt(rows', k), rows);
    }
    SetSame(s.tables, t);
  }

  /** A replacement of one entry's image, keeping its rowid. */
  lemma ReplaceElems(rows: seq<Entry>, k: nat, e: Entry)
    requires SortedByRowid(rows) && k < |rows| && e.rowid == rows[k].rowid
    ensures SortedByRowid(rows[k := e])
    ensures Elems(rows[k := e]) == Elems(rows) - {rows[k]} + {e}
  {
    var r := rows[k := e];
    assert r[k] == e;
    forall x | x in Elems(rows) && x != rows[k] ensures x in Elems(r) {
      var i :| 0 <= i < |rows| && rows[i] == x;
      assert r[i] == x;
    }
    forall x | x in Elems(r) ensures x == e || (x in Elems(rows) && x != rows[k]) {
      var i :| 0 <= i < |r| && r[i] == x;
      if i != k {
        assert rows[i] == x && rows[i].rowid != rows[k].rowid;
      }
    }
  }

  /** An update by key of a stored row replaces exactly that row's fields,
      keeping its rowid, captures the old fields, and keeps the store valid. */
  lemma UpdateByKeyEffect(s: State, t: Table, x: Entry, image: Row)
    requires Valid(s) && x in s.tables.Get(t) && |image| > 0 && image[0] == x.image[0]
    requires UpdateByKey(s, t, image).result.Ok?
    ensures var o := UpdateByKey(s, t, image);
      && Elems(o.state.tables.Get(t)) == Elems(s.tables.Get(t)) - {x} + {Entry(x.rowid, image)}
      && (forall u :: u != t ==> o.state.tables.Get(u) == s.tables.Get(u))
      && o.state.statements == s.statements + [Captured(LastStepId(s), SetAll(t, x.image))]
      && Valid(o.state)
  {
    var rows := s.tables.Get(t);
    ValidSorted(s, t);
    FindKeyOfRow(t, rows, x);
    var k := FindKey(rows, x.image[0]).value;
    var e := Entry(x.rowid, image);
    var rows' := rows[k := e];
    assert WellFormedEntry(t, x);
    assert WellFormedEntry(t, e) && !ConflictExcept(rows, image, k);
    ReplacedRowValid(t, rows, k, e);
    ValidAfterWrite(s, t, rows', SetAll(t, x.image));
  }

  /** Replacing a valid table's row by a well-formed entry under the same
      rowid that clashes with no other row keeps the table valid. */
  lemma ReplacedRowValid(t: Table, rows: seq<Entry>, k: nat, e: Entry)
    requires ValidRows(t, rows) && k < |rows| && e.rowid == rows[k].rowid
    requires WellFormedEntry(t, e) && !ConflictExcept(rows, e.image, k)
    ensures ValidRows(t, rows[k := e]) && Elems(rows[k := e]) == Elems(rows) - {rows[k]} + {e}
  {
    var rows' := rows[k := e];
    var x := rows[k];
    ReplaceElems(rows, k, e);
    forall y | y in rows' ensures y == e || (y in rows && y != x) {
      assert y in Elems(rows');
    }
    forall i | 0 <= i < |rows| && i != k ensures !Clash(rows[i].image, e.image) {
      assert !ConflictExcept(rows, e.image, k);
    }
    forall y | y in rows && y != x ensures !Clash(y.image, e.image) && !Clash(e.image, y.image) {
      var i :| 0 <= i < |rows| && rows[i] == y;
      ClashSymmetric(y.image, e.image);
    }
  }

  /** Undoing an update in a table of one row restores it. */
  lemma UpdateThenInverseOneRow(s: State, t: Table, x: Entry, image: Row)
    requires Valid(s) && s.tables.Get(t) == [x] && |image| > 0 && |x.image| > 0 && image[0] == x.image[0]
    requires UpdateByKey(s, t, image).result.Ok? && (t, x.image) !in s.rejected
    ensures var o := UpdateByKey(s, t, image);
      var e := Execute(o.state, SetAll(t, x.image));
      e.result.Ok? && e.state.tables == s.tables
  {
    var s' := UpdateByKey(s, t, image).state;
    UpdateByKeyEffect(s, t, x, image);
    assert s'.tables.Get(t) == [Entry(x.rowid, image)] by {
      assert FindKey([x], image[0]) == Some(0);
    }
    assert WellFormedEntry(t, x) by {
      ValidSorted(s, t);
    }
    assert Overwrite(t, [Entry(x.rowid, image)], x.image) == [x];
    SetSame(s.tables, t);
  }

  /** The captured inverse of an update has no WHERE clause: once a table
      holds two rows or more, running it fails on the key and changes
      nothing, so the update cannot be undone. */
  lemma UpdateThenInverseFails(s: State, t: Table, x: Entry, image: Row)
    requires Valid(s) && x in s.tables.Get(t) && |s.tables.Get(t)| >= 2
    requires |image| > 0 && image[0] == x.image[0]
    requires UpdateByKey(s, t, image).result.Ok?
    ensures var o := UpdateByKey(s, t, image);
      Execute(o.state, SetAll(t, x.image)) == Outcome(o.state, Err(UniqueFailed))
  {
    var s' := UpdateByKey(s, t, image).state;
    var rows := s.tables.Get(t);
    UpdateByKeyEffect(s, t, x, image);
    assert WellFormedEntry(t, x) by {
      ValidSorted(s, t);
    }
    assert Clash(x.image, x.image);
    UpdateByKeyLength(s, t, image);
    SetAllRefused(s', t, x.image);
  }

  /** An update by key leaves the number of rows as it was. */
  lemma UpdateByKeyLength(s: State, t: Table, image: Row)
    ensures |UpdateByKey(s, t, image).state.tables.Get(t)| == |s.tables.Get(t)|
  {
  }

  /** A statement that sets every row of a table holding two rows or more
      to one image that clashes with itself fails and changes nothing. */
  lemma SetAllRefused(s: State, t: Table, image: Row)
    requires |image| == Arity(t) && |s.tables.Get(t)| >= 2 && Clash(image, image)
    requires KeyIsRowid(t) ==> image[0].Integer?
    ensures Execute(s, SetAll(t, image)) == Outcome(s, Err(UniqueFailed))
  {
  }

  // -----------------------------------------------------------------------
  // insert_or_get

  /** An insert whose row meets a stored row it cannot coexist with fails
      on the UNIQUE constraint and changes nothing. */
  lemma InsertRefused(s: State, t: Table, image: Row, j: nat)
    requires |image| == Arity(t) && RowidFor(s.tables.Get(t), t, image).Ok?
    requires j < |s.tables.Get(t)|
    requires var stored := if KeyIsRowid(t) then image[0 := Integer(RowidFor(s.tables.Get(t), t, image).value)] else image;
      Clash(s.tables.Get(t)[j].image, stored)
    ensures Insert(s, t, image) == Outcome(s, Err(UniqueFailed))
  {
  }

  /** In a valid table the lookup by non-key fields, none of them NULL,
      finds the one row carrying them. */
  lemma FindNonKeyUnique(t: Table, rows: seq<Entry>, e: Entry, image: Row)
    requires ValidRows(t, rows) && e in rows && SameNonKey(e.image, image)
    requires forall i | 1 <= i < |image| :: !image[i].Null?
    ensures FindNonKey(rows, image).Some? && rows[FindNonKey(rows, image).value] == e
  {
    var j :| 0 <= j < |rows| && rows[j] == e;
    var k := FindNonKey(rows, image).value;
    assert rows[k] in rows;
    assert NonKeyClash(rows[k].image, e.image);
  }

  /** Inserting the same model again, when none of its non-key fields is
      NULL, reports the row stored by the first insert and changes nothing. */
  lemma InsertOrGetAgain(s: State, t: Table, image: Row)
    requires Valid(s) && Insert(s, t, image).result.Ok?
    requires KeyIsRowid(t) || (|image| > 0 && !image[0].Null?)
    requires forall i | 1 <= i < |image| :: !image[i].Null?
    ensures var o := Insert(s, t, image);
      InsertOrGet(o.state, t, image) == Outcome(o.state, Ok(Existing(o.result.value)))
  {
    var o := Insert(s, t, image);
    var s1 := o.state;
    var rows1 := s1.tables.Get(t);
    var row := o.result.value;
    var e := Entry(InsertedRowid(s, t, image), row);
    InsertedStored(s, t, image);
    var j :| 0 <= j < |rows1| && rows1[j] == e;
    var stored := if KeyIsRowid(t) then image[0 := Integer(RowidFor(rows1, t, image).value)] else image;
    assert NonKeyClash(rows1[j].image, stored) by {
      assert forall i | 1 <= i < |image| :: row[i] == row[1..][i - 1];
    }
    InsertRefused(s1, t, image, j);
    FindNonKeyUnique(t, rows1, e, image);
    InsertOrGetFound(s1, t, image, FindNonKey(rows1, image).value);
  }

  /** A refused insert whose image matches a stored row on its non-key
      fields reports that row. */
  lemma InsertOrGetFound(s: State, t: Table, image: Row, k: nat)
    requires Insert(s, t, image) == Outcome(s, Err(UniqueFailed))
    requires FindNonKey(s.tables.Get(t), image) == Some(k) && k < |s.tables.Get(t)|
    ensures InsertOrGet(s, t, image) == Outcome(s, Ok(Existing(s.tables.Get(t)[k].image)))
  {
  }

  /** After an insert the new entry is stored with the image's non-key
      fields, and the table still yields a rowid for the same image. */
  lemma InsertedStored(s: State, t: Table, image: Row)
    requires Valid(s) && Insert(s, t, image).result.Ok?
    requires KeyIsRowid(t) || (|image| > 0 && !image[0].Null?)
    ensures var o := Insert(s, t, image);
      var rows1 := o.state.tables.Get(t);
      var row := o.result.value;
      && Entry(InsertedRowid(s, t, image), row) in rows1 && ValidRows(t, rows1)
      && |row| == |image| == Arity(t) && row[1..] == image[1..]
      && RowidFor(rows1, t, image).Ok?
  {
    var o := Insert(s, t, image);
    InsertEffect(s, t, image);
    InsertUnfold(s, t, image);
    assert Entry(InsertedRowid(s, t, image), o.result.value) in Elems(o.state.tables.Get(t));
    ValidSorted(o.state, t);
  }

  /** With a NULL among the non-key fields the UNIQUE constraint does not
      apply, so inserting the same model twice stores two rows that differ
      only in their id. */
  lemma InsertOrGetNullsDuplicate(s: State, t: Table, image: Row, j: nat)
    requires Valid(s) && KeyIsRowid(t) && Insert(s, t, image).result.Ok?
    requires |image| > 0 && image[0].Null? && 1 <= j < |image| && image[j].Null? && s.rejected == {}
    ensures var o := Insert(s, t, image);
      var o2 := InsertOrGet(o.state, t, image);
      && o2.result.Ok? && o2.result.value.New?
      && o2.result.value.row[1..] == o.result.value[1..]
      && o2.result.value.row[0] != o.result.value[0]
  {
    var o := Insert(s, t, image);
    var s1 := o.state;
    var rows1 := s1.tables.Get(t);
    var r := InsertedRowid(s, t, image);
    InsertedUnderRowid(s, t, image);
    var f := FreshRowid(rows1);
    var stored := image[0 := Integer(f)];
    InsertWithNullAccepted(s1, t, image, j);
    assert f != r by {
      var i :| 0 <= i < |rows1| && rows1[i] == Entry(r, o.result.value);
    }
    assert stored[1..] == o.result.value[1..];
  }

  /** A successful insert into a rowid table stores the image under its new
      rowid and leaves a valid table. */
  lemma InsertedUnderRowid(s: State, t: Table, image: Row)
    requires Valid(s) && KeyIsRowid(t) && Insert(s, t, image).result.Ok?
    ensures var o := Insert(s, t, image);
      var r := InsertedRowid(s, t, image);
      && ValidRows(t, o.state.tables.Get(t)) && Entry(r, o.result.value) in o.state.tables.Get(t)
      && o.result.value == image[0 := Integer(r)] && o.state.rejected == s.rejected
      && |image| == Arity(t)
  {
    var o := Insert(s, t, image);
    InsertEffect(s, t, image);
    InsertUnfold(s, t, image);
    ValidSorted(o.state, t);
    assert Entry(InsertedRowid(s, t, image), o.result.value) in Elems(o.state.tables.Get(t));
  }

  /** An image with a NULL key and a NULL non-key field clashes with no
      stored row, so it is stored under a fresh rowid. */
  lemma InsertWithNullAccepted(s: State, t: Table, image: Row, j: nat)
    requires KeyIsRowid(t) && ValidRows(t, s.tables.Get(t)) && s.rejected == {}
    requires |image| == Arity(t) && image[0].Null? && 1 <= j < |image| && image[j].Null?
    ensures Insert(s, t, image).result == Ok(image[0 := Integer(FreshRowid(s.tables.Get(t)))])
  {
    var rows := s.tables.Get(t);
    var f := FreshRowid(rows);
    var stored := image[0 := Integer(f)];
    assert RowidFor(rows, t, image) == Ok(f);
    forall y | y in rows ensures !Clash(y.image, stored) {
      var i :| 0 <= i < |rows| && rows[i] == y;
      assert WellFormedEntry(t, y) && y.rowid < f;
      assert !NonKeyClash(y.image, stored) by {
        assert stored[j].Null?;
      }
    }
    InsertAccepted(s, t, image, f);
  }

  // -----------------------------------------------------------------------
  // Undo steps: the retention window

  /** Strictly ascending ids inside (lo, hi] number at most hi - lo. */
  lemma {:induction false} AscendingCount(steps: seq<Step>, lo: int, hi: int)
    requires lo <= hi && StepsAscending(steps)
    requires forall i :: 0 <= i < |steps| ==> lo < steps[i].id <= hi
    ensures |steps| <= hi - lo
    decreases |steps|
  {
    if |steps| > 0 {
      var rest := steps[1..];
      assert forall i :: 0 <= i < |rest| ==> rest[i] == steps[i + 1];
      AscendingCount(rest, steps[0].id, hi);
    }
  }

  /** The steps kept are exactly those with ids above the bound. */
  lemma {:induction false} KeepStepsMembers(steps: seq<Step>, bound: int)
    ensures forall x :: x in KeepSteps(steps, bound) <==> x in steps && x.id > bound
    decreases |steps|
  {
    if |steps| > 0 {
      KeepStepsMembers(steps[1..], bound);
      assert forall x :: x in steps <==> x == steps[0] || x in steps[1..];
    }
  }

  lemma {:induction false} KeepStepsAscending(steps: seq<Step>, bound: int)
    requires StepsAscending(steps)
    ensures StepsAscending(KeepSteps(steps, bound))
    decreases |steps|
  {
    if |steps| > 0 {
      var rest := KeepSteps(steps[1..], bound);
      AscendingTail(steps);
      KeepStepsMembers(steps[1..], bound);
      KeepStepsAscending(steps[1..], bound);
      HeadBelowTail(steps, rest);
      AscendingCons(steps[0], rest);
    }
  }

  lemma HeadBelowTail(steps: seq<Step>, rest: seq<Step>)
    requires StepsAscending(steps) && |steps| > 0
    requires forall x :: x in rest ==> x in steps[1..]
    ensures forall x :: x in rest ==> steps[0].id < x.id
  {
    forall x | x in rest ensures steps[0].id < x.id {
      var k :| 0 <= k < |steps[1..]| && steps[1..][k] == x;
      assert steps[k + 1] == x;
    }
  }

  lemma AscendingCons(x: Step, rest: seq<Step>)
    requires StepsAscending(rest)
    requires forall y :: y in rest ==> x.id < y.id
    ensures StepsAscending([x] + rest)
  {
    var s := [x] + rest;
    forall i, j | 0 <= i < j < |s| ensures s[i].id < s[j].id {
      assert s[j] == rest[j - 1];
      if i > 0 {
        assert s[i] == rest[i - 1];
      }
    }
  }

  lemma {:induction false} KeepStepsAppend(steps: seq<Step>, x: Step, bound: int)
    requires x.id > bound
    ensures KeepSteps(steps + [x], bound) == KeepSteps(steps, bound) + [x]
    decreases |steps|
  {
    if |steps| == 0 {
      assert KeepSteps([x], bound) == [x] + KeepSteps([x][1..], bound);
    } else {
      assert (steps + [x])[1..] == steps[1..] + [x];
      KeepStepsAppend(steps[1..], x, bound);
    }
  }

  /** The steps `begin_undo_step` leaves: the old ones above the bound, then
      the new one. */
  lemma BeginUndoStepSteps(s: State, name: string, maxSteps: nat)
    requires maxSteps >= 1
    ensures BeginUndoStep(s, name, maxSteps).steps
      == KeepSteps(s.steps, s.nextStepId - maxSteps) + [Step(s.nextStepId, name)]
  {
    KeepStepsAppend(s.steps, Step(s.nextStepId, name), s.nextStepId - maxSteps);
    BeginUndoStepKeepsAll(s, name, maxSteps,
      KeepSteps(s.steps, s.nextStepId - maxSteps) + [Step(s.nextStepId, name)]);
  }

  lemma BeginUndoStepKeepsAll(s: State, name: string, maxSteps: nat, kept: seq<Step>)
    requires KeepSteps(s.steps + [Step(s.nextStepId, name)], s.nextStepId - maxSteps) == kept
    ensures BeginUndoStep(s, name, maxSteps).steps == kept
  {
  }

  /** The steps above a bound, out of ascending steps older than a new
      step `x`, followed by `x`, fit in the window (bound, x.id]. */
  lemma KeepWindow(steps: seq<Step>, x: Step, bound: int)
    requires StepsAscending(steps) && bound < x.id
    requires forall i :: 0 <= i < |steps| ==> steps[i].id < x.id
    ensures var kept := KeepSteps(steps, bound) + [x];
      && StepsAscending(kept)
      && (forall i :: 0 <= i < |kept| ==> bound < kept[i].id <= x.id)
      && |kept| <= x.id - bound
  {
    var k := KeepSteps(steps, bound);
    KeepStepsMembers(steps, bound);
    KeepStepsAscending(steps, bound);
    KeptBelow(steps, k, x.id);
    AscendingSnoc(k, x);
    AscendingCount(k + [x], bound, x.id);
  }

  lemma KeptBelow(steps: seq<Step>, k: seq<Step>, hi: int)
    requires forall i :: 0 <= i < |steps| ==> steps[i].id < hi
    requires forall y :: y in k ==> y in steps
    ensures forall i :: 0 <= i < |k| ==> k[i].id < hi
  {
    forall i | 0 <= i < |k| ensures k[i].id < hi {
      assert k[i] in steps;
    }
  }

  lemma AscendingSnoc(k: seq<Step>, x: Step)
    requires StepsAscending(k)
    requires forall i :: 0 <= i < |k| ==> k[i].id < x.id
    ensures StepsAscending(k + [x])
  {
  }

  /** Opening a step with a window of `maxSteps` (at least one): the new step
      is the newest, every surviving id lies in (newest - maxSteps, newest],
      so at most `maxSteps` steps remain, and every older step inside the
      window survives. */
  lemma BeginUndoStepRetention(s: State, name: string, maxSteps: nat)
    requires StepsAscending(s.steps) && maxSteps >= 1
    requires forall i :: 0 <= i < |s.steps| ==> s.steps[i].id < s.nextStepId
    ensures var steps' := BeginUndoStep(s, name, maxSteps).steps;
      var newest := s.nextStepId;
      && |steps'| > 0 && steps'[|steps'| - 1] == Step(newest, name)
      && StepsAscending(steps')
      && (forall i :: 0 <= i < |steps'| ==> newest - maxSteps < steps'[i].id <= newest)
      && |steps'| <= maxSteps
      && (forall x :: x in s.steps && x.id > newest - maxSteps ==> x in steps')
  {
    BeginUndoStepSteps(s, name, maxSteps);
    KeepStepsMembers(s.steps, s.nextStepId - maxSteps);
    KeepWindow(s.steps, Step(s.nextStepId, name), s.nextStepId - maxSteps);
  }

  /** Opening a step leaves the statements of every step inside the new
      window as they were. */
  lemma BeginUndoStepKeeps(s: State, name: string, maxSteps: nat, id: int)
    requires id > s.nextStepId - maxSteps
    ensures StatementsOf(BeginUndoStep(s, name, maxSteps).statements, id) == StatementsOf(s.statements, id)
  {
    var bound := s.nextStepId - maxSteps;
    var withNew := s.steps + [Step(s.nextStepId, name)];
    var gone := set i | 0 <= i < |withNew| && withNew[i].id <= bound :: withNew[i].id;
    assert id !in gone;
    if s.foreignKeys {
      DropStatementsOfKeeps(s.statements, gone, id);
    }
  }

  /** Opening a step leaves the tables alone and keeps a valid store valid. */
  lemma BeginUndoStepValid(s: State, name: string, maxSteps: nat)
    requires Valid(s) && maxSteps >= 1
    ensures var s' := BeginUndoStep(s, name, maxSteps);
      s'.tables == s.tables && s'.nextStepId == s.nextStepId + 1 && Valid(s')
  {
    var s' := BeginUndoStep(s, name, maxSteps);
    BeginUndoStepRetention(s, name, maxSteps);
    forall i | 0 <= i < |s'.statements| && s'.statements[i].stepId.Some?
      ensures s'.statements[i].stepId.value < s'.nextStepId
    {
      assert s'.statements[i] in s.statements;
    }
  }

  // -----------------------------------------------------------------------
  // Undoing the newest step

  lemma {:induction false} StatementsOfNone(stmts: seq<Captured>, id: int)
    requires forall i :: 0 <= i < |stmts| ==> stmts[i].stepId != Some(id)
    ensures StatementsOf(stmts, id) == []
    decreases |stmts|
  {
    if |stmts| > 0 {
      assert forall i :: 0 <= i < |stmts[1..]| ==> stmts[1..][i] == stmts[i + 1];
      StatementsOfNone(stmts[1..], id);
    }
  }

  lemma {:induction false} StatementsOfAppend(stmts: seq<Captured>, c: Captured, id: int)
    ensures StatementsOf(stmts + [c], id)
      == StatementsOf(stmts, id) + (if c.stepId == Some(id) then [c.op] else [])
    decreases |stmts|
  {
    if |stmts| == 0 {
      assert StatementsOf([c], id) == (if c.stepId == Some(id) then [c.op] else []) + StatementsOf([c][1..], id);
    } else {
      assert (stmts + [c])[1..] == stmts[1..] + [c];
      StatementsOfAppend(stmts[1..], c, id);
    }
  }

  /** A step opened with no write since cannot be undone. */
  lemma EmptyStepCannotBeUndone(s: State, name: string, maxSteps: nat)
    requires Valid(s) && maxSteps >= 1
    ensures var s' := BeginUndoStep(s, name, maxSteps);
      UndoLastStep(s') == Outcome(s'.(foreignKeys := true), Err(NothingToUndo))
  {
    var s' := BeginUndoStep(s, name, maxSteps);
    BeginUndoStepRetention(s, name, maxSteps);
    BeginUndoStepValid(s, name, maxSteps);
    forall i | 0 <= i < |s'.statements| ensures s'.statements[i].stepId != Some(s.nextStepId) {
      assert s'.statements[i] in s.statements;
    }
    StatementsOfNone(s'.statements, s.nextStepId);
  }

  lemma {:induction false} RemoveLastStep(steps: seq<Step>)
    requires StepsAscending(steps) && |steps| > 0
    ensures RemoveStep(steps, steps[|steps| - 1].id) == steps[..|steps| - 1]
    decreases |steps|
  {
    var last := steps[|steps| - 1];
    if |steps| == 1 {
      assert RemoveStep(steps, last.id) == RemoveStep(steps[1..], last.id);
    } else {
      var tail := steps[1..];
      AscendingTail(steps);
      assert steps[0].id < last.id;
      RemoveLastStep(tail);
      RemoveLastStepCons(steps);
    }
  }

  lemma RemoveLastStepCons(steps: seq<Step>)
    requires |steps| > 1 && steps[0].id != steps[|steps| - 1].id
    requires RemoveStep(steps[1..], steps[|steps| - 1].id) == steps[1..|steps| - 1]
    ensures RemoveStep(steps, steps[|steps| - 1].id) == steps[..|steps| - 1]
  {
    assert steps[..|steps| - 1] == [steps[0]] + steps[1..|steps| - 1];
  }

  lemma AscendingTail(steps: seq<Step>)
    requires StepsAscending(steps) && |steps| > 0
    ensures StepsAscending(steps[1..])
  {
    var tail := steps[1..];
    forall i, j | 0 <= i < j < |tail| ensures tail[i].id < tail[j].id {
      assert tail[i] == steps[i + 1] && tail[j] == steps[j + 1];
    }
  }

  /** Statements do not read `foreign_keys`: the pragma only decides whether
      deleting a step takes its statements along. */
  lemma ExecuteIgnoresForeignKeys(s: State, op: Op, b: bool)
    ensures Execute(s.(foreignKeys := b), op)
      == Outcome(Execute(s, op).state.(foreignKeys := b), Execute(s, op).result)
  {
    match op
    case DeleteRowid(t, rowid) => DeleteIgnoresForeignKeys(s, t, rowid, b);
    case InsertImage(t, image) => InsertIgnoresForeignKeys(s, t, image, b);
    case SetAll(t, image) => SetAllIgnoresForeignKeys(s, t, image, b);
  }

  lemma DeleteIgnoresForeignKeys(s: State, t: Table, rowid: int, b: bool)
    ensures DeleteRowidStmt(s.(foreignKeys := b), t, rowid) == DeleteRowidStmt(s, t, rowid).(foreignKeys := b)
  {
  }

  lemma InsertIgnoresForeignKeys(s: State, t: Table, image: Row, b: bool)
    ensures Insert(s.(foreignKeys := b), t, image) == Outcome(Insert(s, t, image).state.(foreignKeys := b), Insert(s, t, image).result)
  {
  }

  lemma SetAllIgnoresForeignKeys(s: State, t: Table, image: Row, b: bool)
    ensures SetAllStmt(s.(foreignKeys := b), t, image) == Outcome(SetAllStmt(s, t, image).state.(foreignKeys := b), SetAllStmt(s, t, image).result)
  {
    if SetAllWrites(s, t, image) {
      SetAllWriteIgnoresForeignKeys(s, t, image, b);
    } else {
      SetAllFailureIgnoresForeignKeys(s, t, image, b);
    }
  }

  /** The conditions under which `SetAllStmt` writes the table. */
  predicate SetAllWrites(s: State, t: Table, image: Row) {
    var rows := s.tables.Get(t);
    |image| == Arity(t) && |rows| > 0 && (KeyIsRowid(t) ==> image[0].Integer?)
    && !(|rows| >= 2 && Clash(image, image)) && (t, image) !in s.rejected
  }

  lemma SetAllWriteIgnoresForeignKeys(s: State, t: Table, image: Row, b: bool)
    requires SetAllWrites(s, t, image)
    ensures SetAllStmt(s.(foreignKeys := b), t, image) == Outcome(SetAllStmt(s, t, image).state.(foreignKeys := b), SetAllStmt(s, t, image).result)
  {
    var rows := s.tables.Get(t);
    var s1 := s.(tables := s.tables.Set(t, Overwrite(t, rows, image)));
    CaptureEachIgnoresForeignKeys(s1, t, rows, b);
    assert s.(foreignKeys := b).(tables := s.tables.Set(t, Overwrite(t, rows, image))) == s1.(foreignKeys := b);
  }

  lemma SetAllFailureIgnoresForeignKeys(s: State, t: Table, image: Row, b: bool)
    requires !SetAllWrites(s, t, image)
    ensures SetAllStmt(s.(foreignKeys := b), t, image) == Outcome(SetAllStmt(s, t, image).state.(foreignKeys := b), SetAllStmt(s, t, image).result)
  {
  }

  lemma {:induction false} CaptureEachIgnoresForeignKeys(s: State, t: Table, before: seq<Entry>, b: bool)
    ensures CaptureEach(s.(foreignKeys := b), t, before) == CaptureEach(s, t, before).(foreignKeys := b)
    decreases |before|
  {
    if |before| > 0 {
      CaptureEachIgnoresForeignKeys(Capture(s, SetAll(t, before[0].image)), t, before[1..], b);
    }
  }

  lemma {:induction false} ReplayIgnoresForeignKeys(s: State, ops: seq<Op>, b: bool)
    ensures Replay(s.(foreignKeys := b), ops)
      == Outcome(Replay(s, ops).state.(foreignKeys := b), Replay(s, ops).result)
    decreases |ops|
  {
    if |ops| > 0 {
      ExecuteIgnoresForeignKeys(s, ops[0], b);
      ReplayIgnoresForeignKeys(Execute(s, ops[0]).state, ops[1..], b);
    }
  }

  /** After an undo the flag is on again; a successful undo removes exactly
      the newest step, a failed one keeps every step. */
  lemma UndoStepBookkeeping(s: State)
    requires StepsAscending(s.steps)
    ensures var o := UndoLastStep(s);
      && o.state.foreignKeys
      && o.state.nextStepId == s.nextStepId && o.state.version == s.version
      && (o.result.Ok? ==> |s.steps| > 0 && o.state.steps == s.steps[..|s.steps| - 1])
      && (o.result.Err? ==> o.state.steps == s.steps)
  {
    var o := UndoLastStep(s);
    if o.result.Ok? {
      RemoveLastStep(s.steps);
    }
  }

  // -----------------------------------------------------------------------
  // Undo scenarios

  /** The statements a store holds all belong to steps older than `id`. */
  predicate StatementsBefore(stmts: seq<Captured>, id: int) {
    forall i :: 0 <= i < |stmts| && stmts[i].stepId.Some? ==> stmts[i].stepId.value < id
  }

  /** Just after a step is opened, it owns no statement and is the newest. */
  lemma FreshStep(s: State, name: string, maxSteps: nat)
    requires Valid(s) && maxSteps >= 1
    ensures var s1 := BeginUndoStep(s, name, maxSteps);
      && Valid(s1) && s1.tables == s.tables
      && LastStepId(s1) == Some(s.nextStepId)
      && StatementsOf(s1.statements, s.nextStepId) == []
  {
    var s1 := BeginUndoStep(s, name, maxSteps);
    BeginUndoStepRetention(s, name, maxSteps);
    BeginUndoStepValid(s, name, maxSteps);
    forall i | 0 <= i < |s1.statements| ensures s1.statements[i].stepId != Some(s.nextStepId) {
      assert s1.statements[i] in s.statements;
    }
    StatementsOfNone(s1.statements, s.nextStepId);
  }

  lemma FindRowidInRows(rows: seq<Entry>, rowid: int)
    ensures FindRowid(rows, rowid).Some? ==> rows[FindRowid(rows, rowid).value] in rows
  {
  }

  /** Deleting a rowid that no row has changes nothing. */
  lemma DeleteRowidAbsent(s: State, t: Table, rowid: int)
    requires rowid !in Rowids(s.tables.Get(t))
    ensures DeleteRowidStmt(s, t, rowid) == s
  {
    FindRowidInRows(s.tables.Get(t), rowid);
  }

  /** Undoing a step that inserted one row takes that row out again and
      removes the step (undo.rs, "undo a step that added one tag rule"). */
  lemma UndoRestoresSingleInsert(s: State, name: string, maxSteps: nat, t: Table, image: Row)
    requires Valid(s) && maxSteps >= 1
    requires KeyIsRowid(t) || (|image| > 0 && !image[0].Null?)
    requires Insert(BeginUndoStep(s, name, maxSteps), t, image).result.Ok?
    ensures var s1 := BeginUndoStep(s, name, maxSteps);
      var u := UndoLastStep(Insert(s1, t, image).state);
      && u.result.Ok? && u.state.tables == s.tables
      && u.state.steps == s1.steps[..|s1.steps| - 1]
  {
    var s1 := BeginUndoStep(s, name, maxSteps);
    var o := Insert(s1, t, image);
    var r := InsertedRowid(s1, t, image);
    var op := DeleteRowid(t, r);
    SingleInsertPending(s, name, maxSteps, t, image);
    FreshStep(s, name, maxSteps);
    InsertThenInverse(s1, t, image);
    ReplayIgnoresForeignKeys(o.state, [op], false);
    assert Replay(o.state, [op]).state == Execute(o.state, op).state;
    assert StepsAscending(o.state.steps) by {
      BeginUndoStepRetention(s, name, maxSteps);
    }
    UndoStepBookkeeping(o.state);
  }

  /** The one insert of a fresh step leaves its inverse as the step's only
      statement. */
  lemma SingleInsertPending(s: State, name: string, maxSteps: nat, t: Table, image: Row)
    requires Valid(s) && maxSteps >= 1
    requires KeyIsRowid(t) || (|image| > 0 && !image[0].Null?)
    requires Insert(BeginUndoStep(s, name, maxSteps), t, image).result.Ok?
    ensures var s1 := BeginUndoStep(s, name, maxSteps);
      var o := Insert(s1, t, image);
      PendingOps(o.state.(foreignKeys := false)) == [DeleteRowid(t, InsertedRowid(s1, t, image))]
  {
    var s1 := BeginUndoStep(s, name, maxSteps);
    var o := Insert(s1, t, image);
    var op := DeleteRowid(t, InsertedRowid(s1, t, image));
    FreshStep(s, name, maxSteps);
    assert o.state.statements == s1.statements + [Captured(Some(s.nextStepId), op)] by {
      InsertEffect(s1, t, image);
    }
    StatementsOfAppend(s1.statements, Captured(Some(s.nextStepId), op), s.nextStepId);
  }

  /** Undo succeeds exactly when replaying the newest step's statements
      does, and then leaves the tables the replay leaves. */
  lemma UndoIsReplay(s: State)
    requires |PendingOps(s)| > 0
    ensures UndoLastStep(s).result.Ok? <==> Replay(s, PendingOps(s)).result.Ok?
    ensures UndoLastStep(s).state.tables == Replay(s, PendingOps(s)).state.tables
  {
    ReplayIgnoresForeignKeys(s, PendingOps(s), false);
    assert PendingOps(s.(foreignKeys := false)) == PendingOps(s);
  }

  lemma ReplayPair(s: State, a: Op, b: Op)
    requires Execute(s, a).result.Ok?
    ensures Replay(s, [a, b]).result == Execute(Execute(s, a).state, b).result
    ensures Replay(s, [a, b]).state == Execute(Execute(s, a).state, b).state
  {
    assert [a, b][1..] == [b];
    var e := Execute(Execute(s, a).state, b);
    assert Replay(Execute(s, a).state, [b]) == (if e.result.Err? then e else Replay(e.state, []));
  }

  /** An insert as the first write of a fresh step: the row is stored under
      its new rowid and the step holds only the delete that undoes it. */
  lemma AddInFreshStep(s: State, name: string, maxSteps: nat, t: Table, image: Row)
    requires Valid(s) && maxSteps >= 1 && KeyIsRowid(t)
    requires Insert(BeginUndoStep(s, name, maxSteps), t, image).result.Ok?
    ensures var s1 := BeginUndoStep(s, name, maxSteps);
      var o1 := Insert(s1, t, image);
      var r := InsertedRowid(s1, t, image);
      var N := s.nextStepId;
      && Valid(o1.state) && LastStepId(o1.state) == Some(N)
      && Entry(r, o1.result.value) in o1.state.tables.Get(t) && o1.result.value[0] == Integer(r)
      && StatementsOf(o1.state.statements, N) == [DeleteRowid(t, r)]
      && (t, o1.result.value) !in o1.state.rejected
  {
    var s1 := BeginUndoStep(s, name, maxSteps);
    var N := s.nextStepId;
    var o1 := Insert(s1, t, image);
    var r := InsertedRowid(s1, t, image);
    var x := Entry(r, o1.result.value);
    assert Valid(s1) && LastStepId(s1) == Some(N) && StatementsOf(s1.statements, N) == [] by {
      FreshStep(s, name, maxSteps);
    }
    assert o1.state.steps == s1.steps;
    InsertEffect(s1, t, image);
    InsertUnfold(s1, t, image);
    assert x in Elems(o1.state.tables.Get(t));
    StatementsOfAppend(s1.statements, Captured(Some(N), DeleteRowid(t, r)), N);
  }

  /** Undoing a step that inserted a row and then deleted it runs the
      captured statements in capture order: the delete of the new rowid
      finds nothing, then the re-insert puts the row back, so the row
      remains (undo.rs, "add then delete a tag rule in one step"). */
  lemma UndoAddThenDeleteKeepsRow(s: State, name: string, maxSteps: nat, t: Table, image: Row)
    requires Valid(s) && maxSteps >= 1 && KeyIsRowid(t)
    requires Insert(BeginUndoStep(s, name, maxSteps), t, image).result.Ok?
    ensures var s1 := BeginUndoStep(s, name, maxSteps);
      var o1 := Insert(s1, t, image);
      var o2 := DeleteByKey(o1.state, t, o1.result.value[0]);
      var u := UndoLastStep(o2.state);
      && o2.result == Ok(1)
      && u.result.Ok? && u.state.tables == o1.state.tables
  {
    var s1 := BeginUndoStep(s, name, maxSteps);
    var o1 := Insert(s1, t, image);
    AddInFreshStep(s, name, maxSteps, t, image);
    UndoDeleteOfAdded(o1.state, t, Entry(InsertedRowid(s1, t, image), o1.result.value), s.nextStepId);
  }

  /** The second half of the above: deleting, in the same step, a row whose
      only undo statement so far is its own delete, and then undoing. */
  lemma UndoDeleteOfAdded(st: State, t: Table, x: Entry, N: int)
    requires Valid(st) && KeyIsRowid(t) && x in st.tables.Get(t) && x.image[0] == Integer(x.rowid)
    requires LastStepId(st) == Some(N) && StatementsOf(st.statements, N) == [DeleteRowid(t, x.rowid)]
    requires (t, x.image) !in st.rejected
    ensures var o2 := DeleteByKey(st, t, x.image[0]);
      var u := UndoLastStep(o2.state);
      && o2.result == Ok(1)
      && u.result.Ok? && u.state.tables == st.tables
  {
    var r, row := x.rowid, x.image;
    var o2 := DeleteByKey(st, t, row[0]);
    var ops := [DeleteRowid(t, r), InsertImage(t, row)];
    DeleteOfAddedPending(st, t, x, N);
    assert Execute(o2.state, ops[0]) == Outcome(o2.state, Ok(())) by {
      DeleteRowidAbsent(o2.state, t, r);
    }
    ReplayPair(o2.state, ops[0], ops[1]);
    DeleteThenInverse(st, t, x);
    UndoIsReplay(o2.state);
  }

  lemma DeleteOfAddedPending(st: State, t: Table, x: Entry, N: int)
    requires Valid(st) && x in st.tables.Get(t)
    requires LastStepId(st) == Some(N) && StatementsOf(st.statements, N) == [DeleteRowid(t, x.rowid)]
    ensures var o2 := DeleteByKey(st, t, x.image[0]);
      && o2.result == Ok(1) && x.rowid !in Rowids(o2.state.tables.Get(t))
      && PendingOps(o2.state) == [DeleteRowid(t, x.rowid), InsertImage(t, x.image)]
  {
    DeleteOfAddedRemoves(st, t, x);
    DeleteOfAddedCaptures(st, t, x, N);
  }

  lemma DeleteOfAddedRemoves(st: State, t: Table, x: Entry)
    requires Valid(st) && x in st.tables.Get(t)
    ensures var o2 := DeleteByKey(st, t, x.image[0]);
      o2.result == Ok(1) && x.rowid !in Rowids(o2.state.tables.Get(t))
  {
    DeleteByKeyEffect(st, t, x);
  }

  lemma DeleteOfAddedCaptures(st: State, t: Table, x: Entry, N: int)
    requires Valid(st) && x in st.tables.Get(t)
    requires LastStepId(st) == Some(N) && StatementsOf(st.statements, N) == [DeleteRowid(t, x.rowid)]
    ensures PendingOps(DeleteByKey(st, t, x.image[0]).state) == [DeleteRowid(t, x.rowid), InsertImage(t, x.image)]
  {
    DeleteByKeyEffect(st, t, x);
    StatementsOfAppend(st.statements, Captured(Some(N), InsertImage(t, x.image)), N);
  }

  // -----------------------------------------------------------------------
  // What writes do to the statements of other steps

  lemma {:induction false} DropStatementsOfKeeps(stmts: seq<Captured>, gone: set<int>, id: int)
    requires id !in gone
    ensures StatementsOf(DropStatementsOf(stmts, gone), id) == StatementsOf(stmts, id)
    decreases |stmts|
  {
    if |stmts| > 0 {
      DropStatementsOfKeeps(stmts[1..], gone, id);
      var rest := DropStatementsOf(stmts[1..], gone);
      if !(stmts[0].stepId.Some? && stmts[0].stepId.value in gone) {
        assert ([stmts[0]] + rest)[1..] == rest;
      }
    }
  }

  lemma {:induction false} CaptureEachKeeps(s: State, t: Table, before: seq<Entry>, id: int)
    requires LastStepId(s) != Some(id)
    ensures StatementsOf(CaptureEach(s, t, before).statements, id) == StatementsOf(s.statements, id)
    decreases |before|
  {
    if |before| > 0 {
      var s1 := Capture(s, SetAll(t, before[0].image));
      StatementsOfAppend(s.statements, Captured(LastStepId(s), SetAll(t, before[0].image)), id);
      CaptureEachKeeps(s1, t, before[1..], id);
    }
  }

  /** A statement's triggers write only to the newest step: every other
      step keeps its statements. */
  lemma ExecuteKeeps(s: State, op: Op, id: int)
    requires LastStepId(s) != Some(id)
    ensures StatementsOf(Execute(s, op).state.statements, id) == StatementsOf(s.statements, id)
  {
    match op
    case DeleteRowid(t, rowid) =>
      var rows := s.tables.Get(t);
      if FindRowid(rows, rowid).Some? {
        var k := FindRowid(rows, rowid).value;
        StatementsOfAppend(s.statements, Captured(LastStepId(s), InsertImage(t, rows[k].image)), id);
      }
    case InsertImage(t, image) =>
      var o := Insert(s, t, image);
      if o.result.Ok? {
        InsertUnfold(s, t, image);
        StatementsOfAppend(s.statements, Captured(LastStepId(s), DeleteRowid(t, InsertedRowid(s, t, image))), id);
      }
    case SetAll(t, image) =>
      var rows := s.tables.Get(t);
      if SetAllStmt(s, t, image).result.Ok? && |rows| > 0 {
        var s1 := s.(tables := s.tables.Set(t, Overwrite(t, rows, image)));
        CaptureEachKeeps(s1, t, rows, id);
      }
  }

  lemma {:induction false} ReplayKeeps(s: State, ops: seq<Op>, id: int)
    requires LastStepId(s) != Some(id)
    ensures StatementsOf(Replay(s, ops).state.statements, id) == StatementsOf(s.statements, id)
    decreases |ops|
  {
    if |ops| > 0 {
      ExecuteKeeps(s, ops[0], id);
      ReplayKeeps(Execute(s, ops[0]).state, ops[1..], id);
    }
  }

  predicate AllDeletes(ops: seq<Op>) {
    forall i :: 0 <= i < |ops| ==> ops[i].DeleteRowid?
  }

  /** A delete by rowid never fails, so neither does replaying deletes. */
  lemma {:induction false} ReplayDeletesOk(s: State, ops: seq<Op>)
    requires AllDeletes(ops)
    ensures Replay(s, ops).result.Ok?
    decreases |ops|
  {
    if |ops| > 0 {
      ReplayDeletesOk(Execute(s, ops[0]).state, ops[1..]);
    }
  }

  lemma {:induction false} KeepStepsAll(steps: seq<Step>, bound: int)
    requires forall i :: 0 <= i < |steps| ==> steps[i].id > bound
    ensures KeepSteps(steps, bound) == steps
    decreases |steps|
  {
    if |steps| > 0 {
      KeepStepsAll(steps[1..], bound);
      assert steps == [steps[0]] + steps[1..];
    }
  }

  // -----------------------------------------------------------------------
  // A step of inserts only

  /** Inserting rows one after the other, stopping at the first failure. */
  function InsertAll(s: State, items: seq<(Table, Row)>): (o: Outcome<()>)
    ensures SameSession(s, o.state)
    ensures |s.statements| <= |o.state.statements|
    decreases |items|
  {
    if |items| == 0 then Outcome(s, Ok(()))
    else
      var o := Insert(s, items[0].0, items[0].1);
      if o.result.Err? then Outcome(o.state, Err(o.result.msg)) else InsertAll(o.state, items[1..])
  }

  function OpsOf(cs: seq<Captured>): (ops: seq<Op>)
    ensures |ops| == |cs| && forall i :: 0 <= i < |cs| ==> ops[i] == cs[i].op
  {
    if |cs| == 0 then [] else [cs[0].op] + OpsOf(cs[1..])
  }

  /** The rowids the given statements delete from table `u`. */
  function RowidsDeleted(ops: seq<Op>, u: Table): set<int> {
    if |ops| == 0 then {}
    else (if ops[0].DeleteRowid? && ops[0].table == u then {ops[0].rowid} else {}) + RowidsDeleted(ops[1..], u)
  }

  predicate AllSorted(ts: Tables) {
    forall u :: SortedByRowid(ts.Get(u))
  }

  /** One successful insert, as the sequence of inserts needs it. */
  lemma InsertStep(s: State, t: Table, image: Row)
    requires Valid(s) && Insert(s, t, image).result.Ok?
    requires KeyIsRowid(t) || (|image| > 0 && !image[0].Null?)
    ensures var o := Insert(s, t, image);
      var r := InsertedRowid(s, t, image);
      && Valid(o.state)
      && o.state.statements == s.statements + [Captured(LastStepId(s), DeleteRowid(t, r))]
      && LastStepId(o.state) == LastStepId(s)
      && (forall u :: Elems(s.tables.Get(u)) <= Elems(o.state.tables.Get(u)))
      && (forall u :: Rowids(o.state.tables.Get(u)) == Rowids(s.tables.Get(u)) + (if u == t then {r} else {}))
      && r !in Rowids(s.tables.Get(t))
  {
    InsertEffect(s, t, image);
  }

  /** A sequence of successful inserts keeps the rows already there, adds
      rows under fresh rowids, and captures one delete of each new rowid,
      all for the newest step. */
  lemma {:induction false} InsertAllEffect(s: State, items: seq<(Table, Row)>)
    requires Valid(s) && InsertAll(s, items).result.Ok?
    requires forall i :: 0 <= i < |items| ==> KeyIsRowid(items[i].0) || (|items[i].1| > 0 && !items[i].1[0].Null?)
    ensures var f := InsertAll(s, items).state;
      var ops := OpsOf(f.statements[|s.statements|..]);
      && Valid(f)
      && |f.statements| == |s.statements| + |items| && f.statements[..|s.statements|] == s.statements
      && (forall i :: |s.statements| <= i < |f.statements| ==>
            f.statements[i].stepId == LastStepId(s) && f.statements[i].op.DeleteRowid?)
      && (forall u :: Elems(s.tables.Get(u)) <= Elems(f.tables.Get(u)))
      && (forall u :: Rowids(f.tables.Get(u)) == Rowids(s.tables.Get(u)) + RowidsDeleted(ops, u))
      && (forall u :: RowidsDeleted(ops, u) !! Rowids(s.tables.Get(u)))
    decreases |items|
  {
    var f := InsertAll(s, items).state;
    if |items| == 0 {
      assert OpsOf(f.statements[|s.statements|..]) == [];
    } else {
      var t0 := items[0].0;
      var o := Insert(s, t0, items[0].1);
      var r0 := InsertedRowid(s, t0, items[0].1);
      InsertStep(s, t0, items[0].1);
      InsertAllEffect(o.state, items[1..]);
      assert f == InsertAll(o.state, items[1..]).state;
      var c0 := Captured(LastStepId(s), DeleteRowid(t0, r0));
      CapturesExtend(s.statements, o.state.statements, f.statements, c0);
      RowidsExtend(s.tables, o.state.tables, f.tables, t0, r0, OpsOf(f.statements[|o.state.statements|..]));
    }
  }

  /** The captures of one insert followed by those of the rest. */
  lemma CapturesExtend(a: seq<Captured>, b: seq<Captured>, f: seq<Captured>, c: Captured)
    requires b == a + [c] && c.op.DeleteRowid?
    requires |b| <= |f| && f[..|b|] == b
    requires forall i :: |b| <= i < |f| ==> f[i].stepId == c.stepId && f[i].op.DeleteRowid?
    ensures f[..|a|] == a && OpsOf(f[|a|..]) == [c.op] + OpsOf(f[|b|..])
    ensures forall i :: |a| <= i < |f| ==> f[i].stepId == c.stepId && f[i].op.DeleteRowid?
  {
    PrefixStep(a, b, c, f);
    var added, added' := f[|a|..], f[|b|..];
    assert OpsOf(added)[1..] == OpsOf(added');
    forall i | |a| <= i < |f| ensures f[i].stepId == c.stepId && f[i].op.DeleteRowid? {
      if i == |a| {
        assert f[i] == b[i];
      }
    }
  }

  /** The tables after one insert under a fresh rowid followed by the rest. */
  lemma RowidsExtend(s: Tables, o: Tables, f: Tables, t: Table, r: int, ops': seq<Op>)
    requires forall u :: Elems(s.Get(u)) <= Elems(o.Get(u))
    requires forall u :: Rowids(o.Get(u)) == Rowids(s.Get(u)) + (if u == t then {r} else {})
    requires r !in Rowids(s.Get(t))
    requires forall u :: Elems(o.Get(u)) <= Elems(f.Get(u))
    requires forall u :: Rowids(f.Get(u)) == Rowids(o.Get(u)) + RowidsDeleted(ops', u)
    requires forall u :: RowidsDeleted(ops', u) !! Rowids(o.Get(u))
    ensures var ops := [DeleteRowid(t, r)] + ops';
      && (forall u :: Elems(s.Get(u)) <= Elems(f.Get(u)))
      && (forall u :: Rowids(f.Get(u)) == Rowids(s.Get(u)) + RowidsDeleted(ops, u))
      && (forall u :: RowidsDeleted(ops, u) !! Rowids(s.Get(u)))
  {
    var ops := [DeleteRowid(t, r)] + ops';
    assert ops[1..] == ops';
    forall u ensures RowidsDeleted(ops, u) == (if u == t then {r} else {}) + RowidsDeleted(ops', u) {
    }
  }

  /** Extending a prefix by one element, as a sequence of captures needs it. */
  lemma PrefixStep<T>(a: seq<T>, b: seq<T>, c: T, f: seq<T>)
    requires b == a + [c] && |b| <= |f| && f[..|b|] == b
    ensures f[..|a|] == a && f[|a|..] == [c] + f[|b|..]
  {
    assert f == b + f[|b|..];
  }

  /** Deleting one rowid, as the replay of deletes needs it. */
  lemma DeleteRowidStep(x: State, t: Table, r: int)
    requires AllSorted(x.tables)
    ensures var x' := DeleteRowidStmt(x, t, r);
      && AllSorted(x'.tables)
      && (forall u :: u != t ==> x'.tables.Get(u) == x.tables.Get(u))
      && (forall y :: y in Elems(x'.tables.Get(t)) <==> y in Elems(x.tables.Get(t)) && y.rowid != r)
  {
    var rows := x.tables.Get(t);
    match FindRowid(rows, r)
    case None =>
      forall y | y in Elems(rows) ensures y.rowid != r {
        var i :| 0 <= i < |rows| && rows[i] == y;
      }
    case Some(k) =>
      RemoveAtElems(rows, k);
      forall y | y in Elems(rows) && y.rowid == r ensures y == rows[k] {
        var i :| 0 <= i < |rows| && rows[i] == y;
      }
  }

  /** `after` holds the rows of `before` whose rowids `ops` do not delete. */
  ghost predicate RowsAfterDeletes(before: Tables, after: Tables, ops: seq<Op>) {
    forall u, y {:trigger y in Elems(after.Get(u))} {:trigger y in Elems(before.Get(u))} ::
      y in Elems(after.Get(u)) <==> y in Elems(before.Get(u)) && y.rowid !in RowidsDeleted(ops, u)
  }

  /** Replaying deletes by rowid removes from each table exactly the rows
      with those rowids, whatever the order. */
  lemma {:induction false} ReplayDeletesEffect(x: State, ops: seq<Op>)
    requires AllDeletes(ops) && AllSorted(x.tables)
    ensures AllSorted(Replay(x, ops).state.tables)
    ensures RowsAfterDeletes(x.tables, Replay(x, ops).state.tables, ops)
    decreases |ops|
  {
    if |ops| > 0 {
      var t := ops[0].table;
      var r := ops[0].rowid;
      var x' := Execute(x, ops[0]).state;
      assert x' == DeleteRowidStmt(x, t, r);
      DeleteRowidStep(x, t, r);
      assert AllDeletes(ops[1..]);
      ReplayDeletesEffect(x', ops[1..]);
      var g := Replay(x, ops).state;
      assert g == Replay(x', ops[1..]).state;
      forall u, y ensures y in Elems(g.tables.Get(u))
        <==> y in Elems(x.tables.Get(u)) && y.rowid !in RowidsDeleted(ops, u)
      {
        assert RowidsDeleted(ops, u) == (if u == t then {r} else {}) + RowidsDeleted(ops[1..], u);
        assert y in Elems(g.tables.Get(u)) <==> y in Elems(x'.tables.Get(u)) && y.rowid !in RowidsDeleted(ops[1..], u);
        if u == t {
          assert y in Elems(x'.tables.Get(u)) <==> y in Elems(x.tables.Get(u)) && y.rowid != r;
        } else {
          assert x'.tables.Get(u) == x.tables.Get(u);
        }
      }
    }
  }

  lemma {:induction false} StatementsOfConcat(a: seq<Captured>, b: seq<Captured>, id: int)
    ensures StatementsOf(a + b, id) == StatementsOf(a, id) + StatementsOf(b, id)
    decreases |a|
  {
    if |a| > 0 {
      assert (a + b)[0] == a[0] && (a + b)[1..] == a[1..] + b;
      StatementsOfConcat(a[1..], b, id);
    } else {
      assert a + b == b;
    }
  }

  lemma {:induction false} StatementsOfOwn(b: seq<Captured>, id: int)
    requires forall i :: 0 <= i < |b| ==> b[i].stepId == Some(id)
    ensures StatementsOf(b, id) == OpsOf(b)
    decreases |b|
  {
    if |b| > 0 {
      StatementsOfOwn(b[1..], id);
    }
  }

  /** After the deletes of the inserted rowids, each table holds the rows it
      held before the inserts. */
  lemma RowsRestored(before: seq<Entry>, grown: seq<Entry>, after: seq<Entry>, deleted: set<int>)
    requires SortedByRowid(before) && SortedByRowid(grown) && SortedByRowid(after)
    requires Elems(before) <= Elems(grown)
    requires Rowids(grown) == Rowids(before) + deleted && deleted !! Rowids(before)
    requires forall y :: y in Elems(after) <==> y in Elems(grown) && y.rowid !in deleted
    ensures after == before
  {
    forall y | y in Elems(after) ensures y in Elems(before) {
      assert y.rowid in Rowids(grown);
      var z :| z in before && z.rowid == y.rowid;
      FindRowidOfElem(grown, y);
      FindRowidOfElem(grown, z);
    }
    forall y | y in Elems(before) ensures y in Elems(after) {
      assert y.rowid in Rowids(before);
    }
    SortedDeterminedByElems(after, before);
  }

  /** Undoing a step that inserted any number of rows removes exactly those
      rows (undo.rs, "undo a step that inserted the test data"). */
  lemma UndoRestoresInserts(s: State, name: string, maxSteps: nat, items: seq<(Table, Row)>)
    requires Valid(s) && maxSteps >= 1 && |items| > 0
    requires forall i :: 0 <= i < |items| ==> KeyIsRowid(items[i].0) || (|items[i].1| > 0 && !items[i].1[0].Null?)
    requires InsertAll(BeginUndoStep(s, name, maxSteps), items).result.Ok?
    ensures var u := UndoLastStep(InsertAll(BeginUndoStep(s, name, maxSteps), items).state);
      u.result.Ok? && u.state.tables == s.tables
  {
    var s1 := BeginUndoStep(s, name, maxSteps);
    var f := InsertAll(s1, items).state;
    FreshStep(s, name, maxSteps);
    InsertsArePending(s, name, maxSteps, items);
    DeletesRestore(s1, f, PendingOps(f));
    UndoIsReplay(f);
  }

  /** Replaying the deletes of exactly the inserted rowids gives back the
      tables from before the inserts. */
  lemma DeletesRestore(s1: State, f: State, ops: seq<Op>)
    requires InsertedOnly(s1, f, ops)
    ensures Replay(f, ops).result.Ok? && Replay(f, ops).state.tables == s1.tables
  {
    ReplayDeletesOk(f, ops);
    var g := Replay(f, ops).state;
    ReplayDeletesEffect(f, ops);
    forall u ensures g.tables.Get(u) == s1.tables.Get(u) {
      RowsRestored(s1.tables.Get(u), f.tables.Get(u), g.tables.Get(u), RowidsDeleted(ops, u));
    }
    assert g.tables.Get(Accounts) == s1.tables.Get(Accounts);
    assert g.tables.Get(Transactions) == s1.tables.Get(Transactions);
    assert g.tables.Get(TagRules) == s1.tables.Get(TagRules);
  }

  /** `f` grew from `s` by rows under fresh rowids, and `ops` deletes
      exactly those rowids. */
  predicate InsertedOnly(s: State, f: State, ops: seq<Op>) {
    && |ops| > 0 && AllDeletes(ops) && AllSorted(f.tables) && AllSorted(s.tables)
    && (forall u :: Elems(s.tables.Get(u)) <= Elems(f.tables.Get(u)))
    && (forall u :: Rowids(f.tables.Get(u)) == Rowids(s.tables.Get(u)) + RowidsDeleted(ops, u))
    && (forall u :: RowidsDeleted(ops, u) !! Rowids(s.tables.Get(u)))
  }

  lemma InsertsArePending(s: State, name: string, maxSteps: nat, items: seq<(Table, Row)>)
    requires Valid(s) && maxSteps >= 1 && |items| > 0
    requires forall i :: 0 <= i < |items| ==> KeyIsRowid(items[i].0) || (|items[i].1| > 0 && !items[i].1[0].Null?)
    requires InsertAll(BeginUndoStep(s, name, maxSteps), items).result.Ok?
    ensures var s1 := BeginUndoStep(s, name, maxSteps);
      var f := InsertAll(s1, items).state;
      InsertedOnly(s1, f, PendingOps(f))
  {
    FreshStep(s, name, maxSteps);
    InsertsArePendingAt(BeginUndoStep(s, name, maxSteps), items, s.nextStepId);
  }

  lemma InsertsArePendingAt(s1: State, items: seq<(Table, Row)>, id: int)
    requires Valid(s1) && LastStepId(s1) == Some(id) && StatementsOf(s1.statements, id) == [] && |items| > 0
    requires forall i :: 0 <= i < |items| ==> KeyIsRowid(items[i].0) || (|items[i].1| > 0 && !items[i].1[0].Null?)
    requires InsertAll(s1, items).result.Ok?
    ensures var f := InsertAll(s1, items).state;
      InsertedOnly(s1, f, PendingOps(f))
  {
    PendingAreAdded(s1, items, id);
    AddedInsertedOnly(s1, items);
  }

  /** After the inserts the newest step owns exactly their captures. */
  lemma PendingAreAdded(s1: State, items: seq<(Table, Row)>, id: int)
    requires Valid(s1) && LastStepId(s1) == Some(id) && StatementsOf(s1.statements, id) == []
    requires forall i :: 0 <= i < |items| ==> KeyIsRowid(items[i].0) || (|items[i].1| > 0 && !items[i].1[0].Null?)
    requires InsertAll(s1, items).result.Ok?
    ensures var f := InsertAll(s1, items).state;
      PendingOps(f) == OpsOf(f.statements[|s1.statements|..])
  {
    var f := InsertAll(s1, items).state;
    InsertAllEffect(s1, items);
    assert LastStepId(f) == Some(id);
    OwnedAfter(s1.statements, f.statements, id);
  }

  /** Statements appended after a prefix, all owned by `id`, are what `id`
      owns when the prefix owned nothing. */
  lemma OwnedAfter(before: seq<Captured>, all: seq<Captured>, id: int)
    requires |before| <= |all| && all[..|before|] == before && StatementsOf(before, id) == []
    requires forall i :: |before| <= i < |all| ==> all[i].stepId == Some(id)
    ensures StatementsOf(all, id) == OpsOf(all[|before|..])
  {
    var added := all[|before|..];
    assert all == before + added;
    StatementsOfConcat(before, added, id);
    StatementsOfOwn(added, id);
  }

  lemma AddedInsertedOnly(s1: State, items: seq<(Table, Row)>)
    requires Valid(s1) && |items| > 0
    requires forall i :: 0 <= i < |items| ==> KeyIsRowid(items[i].0) || (|items[i].1| > 0 && !items[i].1[0].Null?)
    requires InsertAll(s1, items).result.Ok?
    ensures var f := InsertAll(s1, items).state;
      InsertedOnly(s1, f, OpsOf(f.statements[|s1.statements|..]))
  {
    var f := InsertAll(s1, items).state;
    ValidAllSorted(s1);
    InsertAllEffect(s1, items);
    ValidAllSorted(f);
  }

  lemma ValidAllSorted(s: State)
    requires Valid(s)
    ensures AllSorted(s.tables)
  {
    forall u ensures SortedByRowid(s.tables.Get(u)) {
      match u
      case Accounts =>
      case Transactions =>
      case TagRules =>
    }
  }

  // -----------------------------------------------------------------------
  // Opening the store (initialize_undo)

  lemma {:induction false} KeepReferencedAscending(steps: seq<Step>, stmts: seq<Captured>)
    requires StepsAscending(steps)
    ensures StepsAscending(KeepReferenced(steps, stmts))
    decreases |steps|
  {
    if |steps| > 0 {
      AscendingTail(steps);
      KeepReferencedAscending(steps[1..], stmts);
      var rest := KeepReferenced(steps[1..], stmts);
      HeadBelowTail(steps, rest);
      AscendingCons(steps[0], rest);
    }
  }

  lemma {:induction false} KeepReferencedAll(steps: seq<Step>, stmts: seq<Captured>)
    requires exists i :: 0 <= i < |stmts| && stmts[i].stepId.None?
    ensures KeepReferenced(steps, stmts) == steps
    decreases |steps|
  {
    if |steps| > 0 {
      KeepReferencedAll(steps[1..], stmts);
      assert !NotInStatements(stmts, steps[0].id);
      assert steps == [steps[0]] + steps[1..];
    }
  }

  lemma {:induction false} DropNothing(stmts: seq<Captured>)
    ensures DropStatementsOf(stmts, {}) == stmts
    decreases |stmts|
  {
    if |stmts| > 0 {
      DropNothing(stmts[1..]);
      assert stmts == [stmts[0]] + stmts[1..];
    }
  }

  /** On open, from scratch every step goes (and, with foreign keys on, every
      statement of theirs); otherwise exactly the steps that some statement
      names survive, in their order. The tables never change and the store
      stays valid. */
  lemma InitializeUndoEffect(s: State, fromScratch: bool)
    requires Valid(s)
    ensures var r := InitializeUndo(s, fromScratch);
      && Valid(r) && r.tables == s.tables
      && (fromScratch ==> r.steps == [])
      && (fromScratch && s.foreignKeys ==> forall x | x in r.statements :: x.stepId.None? || x.stepId.value !in StepIds(s.steps))
      && (!fromScratch && (forall i :: 0 <= i < |s.statements| ==> s.statements[i].stepId.Some?) ==>
            forall x :: x in r.steps <==> x in s.steps && exists i :: 0 <= i < |s.statements| && s.statements[i].stepId == Some(x.id))
  {
    var s1 := if fromScratch then DeleteAllSteps(s) else s;
    KeepReferencedAscending(s1.steps, s1.statements);
    var r := InitializeUndo(s, fromScratch);
    forall i | 0 <= i < |r.steps| ensures r.steps[i].id < r.nextStepId {
      assert r.steps[i] in s1.steps;
    }
    forall i | 0 <= i < |r.statements| && r.statements[i].stepId.Some?
      ensures r.statements[i].stepId.value < r.nextStepId
    {
      assert r.statements[i] in s.statements;
    }
  }

  /** A statement captured with no step (a NULL step id) makes SQL's
      `NOT IN` never true, so opening without `from_scratch` deletes
      nothing at all. */
  lemma InitializeUndoWithOrphanKeepsAll(s: State)
    requires exists i :: 0 <= i < |s.statements| && s.statements[i].stepId.None?
    ensures InitializeUndo(s, false) == s
  {
    KeepReferencedAll(s.steps, s.statements);
    var gone := set i | 0 <= i < |s.steps| && s.steps[i] !in s.steps :: s.steps[i].id;
    assert gone == {};
    DropNothing(s.statements);
  }
}
