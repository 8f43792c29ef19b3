/** The account commands (src/commands/accounts.rs): resolving a name or an
    alias to an account, selecting and unselecting accounts, setting and
    deleting aliases, and the account listing. The commands work on the
    accounts as `get_all` returns them and write each changed account back
    with `update`, whose key is the account name. */
module Accounts {
  import opened Wrappers
  import opened Values
  import opened Store
  import opened StoreFacts
  import opened SqliteImpl

  const NotFound: string := "account or alias not found."

  /** The marker the listing shows for a selected account. */
  const OK: string := "\U{2705}"

  // -----------------------------------------------------------------------
  // Reading the accounts back

  /** Every stored row has the three account fields, as the SELECT of
      `get_all` lists them. */
  predicate AccountShaped(rows: seq<Row>) {
    forall i :: 0 <= i < |rows| ==> |rows[i]| == AccountArity
  }

  /** `get_all` for accounts: the rows in stored order, failing on the first
      row whose values do not convert. */
  function AccountsFrom(rows: seq<Row>): (r: Result<seq<Account>>)
    requires AccountShaped(rows)
    ensures r.Ok? ==> |r.value| == |rows|
    ensures r.Ok? ==> forall i :: 0 <= i < |rows| ==> AccountFromRow(rows[i]) == Ok(r.value[i])
    ensures r.Err? ==> exists i :: 0 <= i < |rows| && AccountFromRow(rows[i]).Err?
  {
    if |rows| == 0 then Ok([])
    else
      var a :- AccountFromRow(rows[0]);
      var rest := AccountsFrom(rows[1..]);
      if rest.Err? then
        assert forall i :: 0 <= i < |rows[1..]| ==> rows[1..][i] == rows[i + 1];
        Err(rest.msg)
      else Ok([a] + rest.value)
  }

  function ReadAccounts(s: State): Result<seq<Account>>
    requires AccountShaped(SelectAll(s, Accounts))
  {
    AccountsFrom(SelectAll(s, Accounts))
  }

  // -----------------------------------------------------------------------
  // get_account_or_selected

  /** `x` is the account's name or its alias. */
  predicate Names(a: Account, x: string) {
    a.name == x || a.alias == Some(x)
  }

  /** The selected accounts, in stored order. */
  function Selected(accts: seq<Account>): (r: seq<Account>)
    ensures forall a :: a in r <==> a in accts && a.selected
  {
    if |accts| == 0 then []
    else
      assert forall a :: a in accts <==> a == accts[0] || a in accts[1..];
      (if accts[0].selected then [accts[0]] else []) + Selected(accts[1..])
  }

  /** The position of the first account that `x` names. */
  function FirstNamed(accts: seq<Account>, x: string): (r: Option<nat>)
    ensures r.Some? ==> r.value < |accts| && Names(accts[r.value], x)
    ensures r.Some? ==> forall j :: 0 <= j < r.value ==> !Names(accts[j], x)
    ensures r.None? ==> forall j :: 0 <= j < |accts| ==> !Names(accts[j], x)
  {
    if |accts| == 0 then None
    else if Names(accts[0], x) then Some(0)
    else
      match FirstNamed(accts[1..], x)
      case None => None
      case Some(k) => Some(k + 1)
  }

  /** What `get_account_or_selected` answers on the given accounts: the
      first account a name designates, or the selected ones when no name is
      given. */
  function Resolve(accts: seq<Account>, name: Option<string>): Result<seq<Account>> {
    match name
    case None => Ok(Selected(accts))
    case Some(x) =>
      match FirstNamed(accts, x)
      case None => Err(NotFound)
      case Some(k) => Ok([accts[k]])
  }

  function AccountOrSelected(s: State, name: Option<string>): Result<seq<Account>>
    requires AccountShaped(SelectAll(s, Accounts))
  {
    var accts :- ReadAccounts(s);
    Resolve(accts, name)
  }

  /** A name resolves to exactly one account, the first in stored order
      that it names, and it fails exactly when it names none; no name means
      exactly the selected accounts. */
  lemma ResolveMeaning(accts: seq<Account>, name: Option<string>)
    ensures name.None? ==> Resolve(accts, name).Ok?
    ensures name.None? ==> forall a :: a in Resolve(accts, name).value <==> a in accts && a.selected
    ensures name.Some? ==>
      (Resolve(accts, name).Ok? <==> exists i :: 0 <= i < |accts| && Names(accts[i], name.value))
    ensures name.Some? && Resolve(accts, name).Ok? ==>
      exists i :: 0 <= i < |accts| && Resolve(accts, name).value == [accts[i]]
        && Names(accts[i], name.value) && forall j :: 0 <= j < i ==> !Names(accts[j], name.value)
  {
    if name.Some? && FirstNamed(accts, name.value).Some? {
      var k := FirstNamed(accts, name.value).value;
      assert Resolve(accts, name).value == [accts[k]];
    }
  }

  lemma {:induction false} SelectedAppend(accts: seq<Account>, a: Account)
    ensures Selected(accts + [a]) == Selected(accts) + (if a.selected then [a] else [])
    decreases |accts|
  {
    if |accts| == 0 {
      assert [a][1..] == [];
    } else {
      assert (accts + [a])[1..] == accts[1..] + [a];
      SelectedAppend(accts[1..], a);
      SnocThrough(Selected(accts + [a]), if accts[0].selected then [accts[0]] else [],
                  Selected(accts[1..] + [a]), Selected(accts[1..]), Selected(accts),
                  if a.selected then [a] else []);
    }
  }

  lemma SnocThrough<T>(whole: seq<T>, head: seq<T>, wholeRest: seq<T>, rest: seq<T>, part: seq<T>, last: seq<T>)
    requires whole == head + wholeRest && wholeRest == rest + last && part == head + rest
    ensures whole == part + last
  {
  }

  /** `get_account_or_selected`: the accounts as stored, then one pass over
      them. */
  method GetAccountOrSelected(db: SqliteDatabase, name: Option<string>) returns (r: Result<seq<Account>>)
    requires AccountShaped(SelectAll(db.Snapshot(), Accounts))
    ensures r == AccountOrSelected(db.Snapshot(), name)
  {
    var rows := db.GetAll(Accounts);
    assert rows == SelectAll(db.Snapshot(), Accounts);
    var all := AccountsFrom(rows);
    if all.Err? {
      return Err(all.msg);
    }
    r := ScanAccounts(all.value, name);
  }

  /** The pass: it collects the selected accounts and returns at the first
      account the name designates. */
  method ScanAccounts(accts: seq<Account>, name: Option<string>) returns (r: Result<seq<Account>>)
    ensures r == Resolve(accts, name)
  {
    var selected: seq<Account> := [];
    var i := 0;
    while i < |accts|
      invariant 0 <= i <= |accts|
      invariant selected == Selected(accts[..i])
      invariant name.Some? ==> forall j :: 0 <= j < i ==> !Names(accts[j], name.value)
    {
      SelectedAppend(accts[..i], accts[i]);
      assert accts[..i + 1] == accts[..i] + [accts[i]];
      if accts[i].selected {
        selected := selected + [accts[i]];
      }
      if name.Some? && Names(accts[i], name.value) {
        return Ok([accts[i]]);
      }
      i := i + 1;
    }
    assert accts[..i] == accts;
    if name.None? {
      return Ok(selected);
    }
    return Err(NotFound);
  }

  // -----------------------------------------------------------------------
  // Writing accounts back

  /** Each account written back with `update`, `selected` set to `flag`,
      stopping at the first failure. */
  function WriteSelected(s: State, accts: seq<Account>, flag: bool): (o: Outcome<()>)
    ensures SameSession(s, o.state)
    decreases |accts|
  {
    if |accts| == 0 then Outcome(s, Ok(()))
    else
      var o := UpdateByKey(s, Accounts, AccountToRow(accts[0].(selected := flag)));
      if o.result.Err? then o else WriteSelected(o.state, accts[1..], flag)
  }

  lemma {:induction false} WriteSelectedAppend(s: State, accts: seq<Account>, a: Account, flag: bool)
    ensures var o := WriteSelected(s, accts, flag);
      WriteSelected(s, accts + [a], flag)
        == if o.result.Err? then o else UpdateByKey(o.state, Accounts, AccountToRow(a.(selected := flag)))
    decreases |accts|
  {
    if |accts| == 0 {
      assert [a][1..] == [];
    } else {
      assert (accts + [a])[0] == accts[0] && (accts + [a])[1..] == accts[1..] + [a];
      var o := UpdateByKey(s, Accounts, AccountToRow(accts[0].(selected := flag)));
      if o.result.Ok? {
        WriteSelectedAppend(o.state, accts[1..], a, flag);
      }
    }
  }

  function WithSelected(accts: seq<Account>, flag: bool): (r: seq<Account>)
    ensures |r| == |accts| && forall i :: 0 <= i < |r| ==> r[i] == accts[i].(selected := flag)
  {
    if |accts| == 0 then [] else [accts[0].(selected := flag)] + WithSelected(accts[1..], flag)
  }

  /** `select`: the resolved account, written back selected. */
  function SelectOutcome(s: State, x: string): Outcome<seq<Account>>
    requires AccountShaped(SelectAll(s, Accounts))
  {
    match AccountOrSelected(s, Some(x))
    case Err(e) => Outcome(s, Err(e))
    case Ok(accts) =>
      var o := WriteSelected(s, accts, true);
      Outcome(o.state, if o.result.Err? then Err(o.result.msg) else Ok(WithSelected(accts, true)))
  }

  /** `unselect`: the resolved accounts (all selected ones when no name is
      given), written back unselected. */
  function UnselectOutcome(s: State, name: Option<string>): Outcome<()>
    requires AccountShaped(SelectAll(s, Accounts))
  {
    match AccountOrSelected(s, name)
    case Err(e) => Outcome(s, Err(e))
    case Ok(accts) => WriteSelected(s, accts, false)
  }

  /** `alias`: the resolved account, written back with the new alias. */
  function AliasOutcome(s: State, x: string, alias: string): Outcome<Account>
    requires AccountShaped(SelectAll(s, Accounts))
  {
    match AccountOrSelected(s, Some(x))
    case Err(e) => Outcome(s, Err(e))
    case Ok(accts) =>
      var a := accts[0].(alias := Some(alias));
      var o := UpdateByKey(s, Accounts, AccountToRow(a));
      Outcome(o.state, if o.result.Err? then Err(o.result.msg) else Ok(a))
  }

  /** `delete_alias`: the account the alias resolves to, written back
      without an alias. */
  function DeleteAliasOutcome(s: State, alias: string): Outcome<()>
    requires AccountShaped(SelectAll(s, Accounts))
  {
    match AccountOrSelected(s, Some(alias))
    case Err(e) => Outcome(s, Err(e))
    case Ok(accts) => UpdateByKey(s, Accounts, AccountToRow(accts[0].(alias := None)))
  }

  /** The `update` loop shared by `select` and `unselect`. */
  method WriteEach(db: SqliteDatabase, accts: seq<Account>, flag: bool) returns (r: Result<()>)
    modifies db
    ensures db.Snapshot() == WriteSelected(old(db.Snapshot()), accts, flag).state
    ensures r == WriteSelected(old(db.Snapshot()), accts, flag).result
  {
    ghost var s0 := db.Snapshot();
    var i := 0;
    while i < |accts|
      invariant 0 <= i <= |accts|
      invariant WriteSelected(s0, accts[..i], flag) == Outcome(db.Snapshot(), Ok(()))
    {
      ghost var before := db.Snapshot();
      WriteSelectedStep(s0, accts, i, flag, before);
      var u := db.Update(Accounts, AccountToRow(accts[i].(selected := flag)));
      if u.Err? {
        return u;
      }
      i := i + 1;
    }
    assert accts[..i] == accts;
    r := Ok(());
  }

  /** One pass of the `update` loop: a failing update ends the whole write
      with its outcome, a successful one extends the written prefix. */
  lemma WriteSelectedStep(s0: State, accts: seq<Account>, i: nat, flag: bool, s: State)
    requires i < |accts| && WriteSelected(s0, accts[..i], flag) == Outcome(s, Ok(()))
    ensures var u := UpdateByKey(s, Accounts, AccountToRow(accts[i].(selected := flag)));
      && (u.result.Err? ==> WriteSelected(s0, accts, flag) == u)
      && (u.result.Ok? ==> WriteSelected(s0, accts[..i + 1], flag) == Outcome(u.state, Ok(())))
  {
    WriteSelectedAppend(s0, accts[..i], accts[i], flag);
    assert accts[..i + 1] == accts[..i] + [accts[i]];
    var u := UpdateByKey(s, Accounts, AccountToRow(accts[i].(selected := flag)));
    if u.result.Err? {
      WriteSelectedErr(s0, accts, i + 1, flag);
    }
  }

  lemma {:induction false} WriteSelectedErr(s: State, accts: seq<Account>, n: nat, flag: bool)
    requires n <= |accts| && WriteSelected(s, accts[..n], flag).result.Err?
    ensures WriteSelected(s, accts, flag) == WriteSelected(s, accts[..n], flag)
    decreases |accts|
  {
    assert n > 0;
    var o := UpdateByKey(s, Accounts, AccountToRow(accts[0].(selected := flag)));
    assert accts[..n][0] == accts[0] && accts[..n][1..] == accts[1..][..n - 1];
    if o.result.Ok? {
      WriteSelectedErr(o.state, accts[1..], n - 1, flag);
    }
  }

  method Select(db: SqliteDatabase, x: string) returns (r: Result<seq<Account>>)
    requires AccountShaped(SelectAll(db.Snapshot(), Accounts))
    modifies db
    ensures db.Snapshot() == SelectOutcome(old(db.Snapshot()), x).state
    ensures r == SelectOutcome(old(db.Snapshot()), x).result
  {
    var found := GetAccountOrSelected(db, Some(x));
    if found.Err? {
      return Err(found.msg);
    }
    var accts := found.value;
    var u := WriteEach(db, accts, true);
    if u.Err? {
      return Err(u.msg);
    }
    r := Ok(WithSelected(accts, true));
  }

  method Unselect(db: SqliteDatabase, name: Option<string>) returns (r: Result<()>)
    requires AccountShaped(SelectAll(db.Snapshot(), Accounts))
    modifies db
    ensures db.Snapshot() == UnselectOutcome(old(db.Snapshot()), name).state
    ensures r == UnselectOutcome(old(db.Snapshot()), name).result
  {
    var found := GetAccountOrSelected(db, name);
    if found.Err? {
      return Err(found.msg);
    }
    r := WriteEach(db, found.value, false);
  }

  method Alias(db: SqliteDatabase, x: string, alias: string) returns (r: Result<Account>)
    requires AccountShaped(SelectAll(db.Snapshot(), Accounts))
    modifies db
    ensures db.Snapshot() == AliasOutcome(old(db.Snapshot()), x, alias).state
    ensures r == AliasOutcome(old(db.Snapshot()), x, alias).result
  {
    var found := GetAccountOrSelected(db, Some(x));
    if found.Err? {
      return Err(found.msg);
    }
    var a := found.value[0].(alias := Some(alias));
    var u := db.Update(Accounts, AccountToRow(a));
    if u.Err? {
      return Err(u.msg);
    }
    r := Ok(a);
  }

  method DeleteAlias(db: SqliteDatabase, alias: string) returns (r: Result<()>)
    requires AccountShaped(SelectAll(db.Snapshot(), Accounts))
    modifies db
    ensures db.Snapshot() == DeleteAliasOutcome(old(db.Snapshot()), alias).state
    ensures r == DeleteAliasOutcome(old(db.Snapshot()), alias).result
  {
    var found := GetAccountOrSelected(db, Some(alias));
    if found.Err? {
      return Err(found.msg);
    }
    r := db.Update(Accounts, AccountToRow(found.value[0].(alias := None)));
  }

  // -----------------------------------------------------------------------
  // What the commands do to the stored accounts

  lemma ValidShaped(s: State)
    requires Valid(s)
    ensures AccountShaped(SelectAll(s, Accounts))
  {
    var rows := s.tables.Get(Accounts);
    forall i | 0 <= i < |rows| ensures |rows[i].image| == AccountArity {
      assert WellFormedEntry(Accounts, rows[i]);
    }
  }

  /** Account names are keys: no two stored accounts share one. */
  predicate DistinctNames(accts: seq<Account>) {
    forall i, j :: 0 <= i < j < |accts| ==> accts[i].name != accts[j].name
  }

  lemma NamesUnique(s: State)
    requires Valid(s) && AccountShaped(SelectAll(s, Accounts)) && ReadAccounts(s).Ok?
    ensures DistinctNames(ReadAccounts(s).value)
  {
    var rows := s.tables.Get(Accounts);
    var v := ReadAccounts(s).value;
    forall i, j | 0 <= i < j < |v| ensures v[i].name != v[j].name {
      if v[i].name == v[j].name {
        KeyIdentifiesRow(Accounts, rows, rows[i], rows[j]);
        ValidSorted(s, Accounts);
      }
    }
  }

  /** Writing back an account under its own name replaces that account
      only, in place. */
  lemma UpdateAccountAt(s: State, k: nat, a: Account)
    requires Valid(s) && AccountShaped(SelectAll(s, Accounts)) && ReadAccounts(s).Ok?
    requires k < |ReadAccounts(s).value| && a.name == ReadAccounts(s).value[k].name
    requires UpdateByKey(s, Accounts, AccountToRow(a)).result.Ok?
    ensures var s' := UpdateByKey(s, Accounts, AccountToRow(a)).state;
      && Valid(s') && AccountShaped(SelectAll(s', Accounts))
      && ReadAccounts(s') == Ok(ReadAccounts(s).value[k := a])
  {
    var s' := UpdateByKey(s, Accounts, AccountToRow(a)).state;
    UpdateAccountRow(s, k, a);
    ValidShaped(s');
    AccountRoundTrip(a);
    AccountsFromReplace(SelectAll(s, Accounts), k, AccountToRow(a), ReadAccounts(s).value, a);
  }

  /** The update rewrites the row of the account in place. */
  lemma UpdateAccountRow(s: State, k: nat, a: Account)
    requires Valid(s) && AccountShaped(SelectAll(s, Accounts)) && ReadAccounts(s).Ok?
    requires k < |ReadAccounts(s).value| && a.name == ReadAccounts(s).value[k].name
    requires UpdateByKey(s, Accounts, AccountToRow(a)).result.Ok?
    ensures var s' := UpdateByKey(s, Accounts, AccountToRow(a)).state;
      Valid(s') && SelectAll(s', Accounts) == SelectAll(s, Accounts)[k := AccountToRow(a)]
  {
    var rows := s.tables.Get(Accounts);
    var image := AccountToRow(a);
    var s' := UpdateByKey(s, Accounts, image).state;
    AccountKeyAt(s, k, a);
    var e := Entry(rows[k].rowid, image);
    assert s'.tables.Get(Accounts) == rows[k := e];
    UpdateByKeyEffect(s, Accounts, rows[k], image);
    ImagesUpdate(rows, k, e);
  }

  /** The account read at position `k` is the row the key finds. */
  lemma AccountKeyAt(s: State, k: nat, a: Account)
    requires Valid(s) && AccountShaped(SelectAll(s, Accounts)) && ReadAccounts(s).Ok?
    requires k < |ReadAccounts(s).value| && a.name == ReadAccounts(s).value[k].name
    ensures var rows := s.tables.Get(Accounts);
      k < |rows| && rows[k].image[0] == AccountToRow(a)[0] && FindKey(rows, AccountToRow(a)[0]) == Some(k)
  {
    var rows := s.tables.Get(Accounts);
    assert rows[k].image == SelectAll(s, Accounts)[k];
    FindKeyOfRow(Accounts, rows, rows[k]);
    ValidSorted(s, Accounts);
  }

  lemma ImagesUpdate(rows: seq<Entry>, k: nat, e: Entry)
    requires k < |rows|
    ensures Images(rows[k := e]) == Images(rows)[k := e.image]
  {
  }

  /** A row list converts exactly when each row does. */
  lemma {:induction false} AccountsFromEach(rows: seq<Row>, accts: seq<Account>)
    requires AccountShaped(rows) && |accts| == |rows|
    requires forall i :: 0 <= i < |rows| ==> AccountFromRow(rows[i]) == Ok(accts[i])
    ensures AccountsFrom(rows) == Ok(accts)
    decreases |rows|
  {
    if |rows| > 0 {
      AccountsFromEach(rows[1..], accts[1..]);
      assert accts == [accts[0]] + accts[1..];
    }
  }

  lemma AccountsFromReplace(rows: seq<Row>, k: nat, row: Row, accts: seq<Account>, a: Account)
    requires AccountShaped(rows) && k < |rows| && |row| == AccountArity
    requires AccountsFrom(rows) == Ok(accts) && AccountFromRow(row) == Ok(a)
    ensures AccountsFrom(rows[k := row]) == Ok(accts[k := a])
  {
    AccountsFromEach(rows[k := row], accts[k := a]);
  }

  /** `select` marks the resolved account selected and changes nothing
      else, so selections accumulate. */
  lemma SelectMarksOne(s: State, x: string)
    requires Valid(s) && AccountShaped(SelectAll(s, Accounts)) && ReadAccounts(s).Ok?
    requires SelectOutcome(s, x).result.Ok?
    ensures var before := ReadAccounts(s).value;
      var s' := SelectOutcome(s, x).state;
      && FirstNamed(before, x).Some?
      && Valid(s') && AccountShaped(SelectAll(s', Accounts))
      && ReadAccounts(s') == Ok(before[FirstNamed(before, x).value := before[FirstNamed(before, x).value].(selected := true)])
  {
    var before := ReadAccounts(s).value;
    SelectWritesFirstNamed(s, x);
    var k := FirstNamed(before, x).value;
    var a := before[k].(selected := true);
    WriteSelectedOne(s, before[k], true);
    UpdateAccountAt(s, k, a);
  }

  lemma SelectWritesFirstNamed(s: State, x: string)
    requires AccountShaped(SelectAll(s, Accounts)) && ReadAccounts(s).Ok?
    requires SelectOutcome(s, x).result.Ok?
    ensures var before := ReadAccounts(s).value;
      && FirstNamed(before, x).Some?
      && SelectOutcome(s, x).state == WriteSelected(s, [before[FirstNamed(before, x).value]], true).state
      && WriteSelected(s, [before[FirstNamed(before, x).value]], true).result.Ok?
  {
  }

  lemma WriteSelectedOne(s: State, a: Account, flag: bool)
    ensures WriteSelected(s, [a], flag) == UpdateByKey(s, Accounts, AccountToRow(a.(selected := flag)))
  {
    var o := UpdateByKey(s, Accounts, AccountToRow(a.(selected := flag)));
    assert [a][1..] == [];
    assert o.result.Ok? ==> WriteSelected(o.state, [], flag) == Outcome(o.state, Ok(()));
  }

  /** Accounts flagged one by one: those named in the list get `flag`. */
  function Flagged(accts: seq<Account>, names: set<string>, flag: bool): (r: seq<Account>)
    ensures |r| == |accts|
    ensures forall i :: 0 <= i < |r| ==> r[i] == if accts[i].name in names then accts[i].(selected := flag) else accts[i]
  {
    if |accts| == 0 then []
    else [if accts[0].name in names then accts[0].(selected := flag) else accts[0]] + Flagged(accts[1..], names, flag)
  }

  function NamesOf(accts: seq<Account>): set<string> {
    set a | a in accts :: a.name
  }

  lemma {:induction false} WriteSelectedEffect(s: State, list: seq<Account>, flag: bool)
    requires Valid(s) && AccountShaped(SelectAll(s, Accounts)) && ReadAccounts(s).Ok?
    requires forall a | a in list :: a in ReadAccounts(s).value
    requires DistinctNames(list)
    requires WriteSelected(s, list, flag).result.Ok?
    ensures var s' := WriteSelected(s, list, flag).state;
      && Valid(s') && AccountShaped(SelectAll(s', Accounts))
      && ReadAccounts(s') == Ok(Flagged(ReadAccounts(s).value, NamesOf(list), flag))
    decreases |list|
  {
    var v := ReadAccounts(s).value;
    if |list| == 0 {
      assert NamesOf(list) == {};
      assert Flagged(v, {}, flag) == v;
    } else {
      assert list[0] in list;
      var k :| 0 <= k < |v| && v[k] == list[0];
      var a := list[0].(selected := flag);
      var s1 := UpdateByKey(s, Accounts, AccountToRow(a)).state;
      UpdateAccountAt(s, k, a);
      NamesUnique(s);
      NamesOfTail(list);
      TailStillStored(v, k, a, list);
      WriteSelectedEffect(s1, list[1..], flag);
      FlaggedStep(v, k, flag, NamesOf(list[1..]));
    }
  }

  lemma NamesOfTail(list: seq<Account>)
    requires |list| > 0 && DistinctNames(list)
    ensures NamesOf(list) == {list[0].name} + NamesOf(list[1..])
    ensures list[0].name !in NamesOf(list[1..])
    ensures DistinctNames(list[1..])
  {
    var rest := NamesOf(list[1..]);
    forall n | n in NamesOf(list) ensures n == list[0].name || n in rest {
      var b :| b in list && b.name == n;
      if b != list[0] {
        var m :| 0 <= m < |list| && list[m] == b;
        assert list[1..][m - 1] == b;
      }
    }
    forall b | b in list[1..] ensures b.name != list[0].name {
      var m :| 0 <= m < |list[1..]| && list[1..][m] == b;
      assert list[m + 1] == b;
    }
    forall i, j | 0 <= i < j < |list[1..]| ensures list[1..][i].name != list[1..][j].name {
      assert list[1..][i] == list[i + 1] && list[1..][j] == list[j + 1];
    }
  }

  lemma TailStillStored(v: seq<Account>, k: nat, a: Account, list: seq<Account>)
    requires |list| > 0 && k < |v| && v[k] == list[0] && DistinctNames(list)
    requires forall b | b in list :: b in v
    ensures forall b | b in list[1..] :: b in v[k := a]
  {
    forall b | b in list[1..] ensures b in v[k := a] {
      var m :| 0 <= m < |list[1..]| && list[1..][m] == b;
      assert list[m + 1] == b && b in list;
      assert b.name != list[0].name;
      var j :| 0 <= j < |v| && v[j] == b;
      assert v[k := a][j] == b;
    }
  }

  lemma FlaggedStep(v: seq<Account>, k: nat, flag: bool, rest: set<string>)
    requires k < |v| && DistinctNames(v) && v[k].name !in rest
    ensures Flagged(v[k := v[k].(selected := flag)], rest, flag) == Flagged(v, {v[k].name} + rest, flag)
  {
    var l := Flagged(v[k := v[k].(selected := flag)], rest, flag);
    var r := Flagged(v, {v[k].name} + rest, flag);
    forall i | 0 <= i < |v| ensures l[i] == r[i] {
      FlaggedStepAt(v, k, flag, rest, i);
    }
  }

  lemma FlaggedStepAt(v: seq<Account>, k: nat, flag: bool, rest: set<string>, i: nat)
    requires k < |v| && i < |v| && DistinctNames(v) && v[k].name !in rest
    ensures Flagged(v[k := v[k].(selected := flag)], rest, flag)[i] == Flagged(v, {v[k].name} + rest, flag)[i]
  {
    if i == k {
      FlaggedAtTarget(v, k, flag, rest);
    } else {
      assert v[i].name != v[k].name by {
        if i < k {
          assert v[i].name != v[k].name;
        } else {
          assert v[k].name != v[i].name;
        }
      }
      FlaggedAtOther(v, k, flag, rest, i);
    }
  }

  lemma FlaggedAtTarget(v: seq<Account>, k: nat, flag: bool, rest: set<string>)
    requires k < |v| && v[k].name !in rest
    ensures Flagged(v[k := v[k].(selected := flag)], rest, flag)[k] == Flagged(v, {v[k].name} + rest, flag)[k]
  {
    assert v[k].name in {v[k].name} + rest;
  }

  lemma FlaggedAtOther(v: seq<Account>, k: nat, flag: bool, rest: set<string>, i: nat)
    requires k < |v| && i < |v| && i != k && v[i].name != v[k].name
    ensures Flagged(v[k := v[k].(selected := flag)], rest, flag)[i] == Flagged(v, {v[k].name} + rest, flag)[i]
  {
    assert v[i].name in {v[k].name} + rest <==> v[i].name in rest;
  }

  lemma {:induction false} DistinctFilter(v: seq<Account>)
    requires DistinctNames(v)
    ensures DistinctNames(Selected(v))
    decreases |v|
  {
    if |v| > 0 {
      DistinctTail(v);
      DistinctFilter(v[1..]);
      var rest := Selected(v[1..]);
      HeadNameNotInTail(v, rest);
      if v[0].selected {
        assert Selected(v) == [v[0]] + rest;
        DistinctCons(v[0], rest);
      } else {
        assert Selected(v) == rest;
      }
    }
  }

  lemma DistinctTail(v: seq<Account>)
    requires DistinctNames(v) && |v| > 0
    ensures DistinctNames(v[1..])
  {
    forall i, j | 0 <= i < j < |v[1..]| ensures v[1..][i].name != v[1..][j].name {
      assert v[1..][i] == v[i + 1] && v[1..][j] == v[j + 1];
    }
  }

  lemma HeadNameNotInTail(v: seq<Account>, rest: seq<Account>)
    requires DistinctNames(v) && |v| > 0
    requires forall b :: b in rest ==> b in v[1..]
    ensures forall b :: b in rest ==> b.name != v[0].name
  {
    forall b | b in rest ensures b.name != v[0].name {
      var m :| 0 <= m < |v[1..]| && v[1..][m] == b;
      assert v[m + 1] == b;
    }
  }

  lemma DistinctCons(x: Account, rest: seq<Account>)
    requires DistinctNames(rest)
    requires forall b :: b in rest ==> b.name != x.name
    ensures DistinctNames([x] + rest)
  {
    var sel := [x] + rest;
    forall i, j | 0 <= i < j < |sel| ensures sel[i].name != sel[j].name {
      assert sel[j] == rest[j - 1] && sel[j] in rest;
      if i > 0 {
        assert sel[i] == rest[i - 1];
      }
    }
  }

  /** `unselect` with no name clears the selection of every account and
      changes nothing else. */
  lemma UnselectAllClears(s: State)
    requires Valid(s) && AccountShaped(SelectAll(s, Accounts)) && ReadAccounts(s).Ok?
    requires UnselectOutcome(s, None).result.Ok?
    ensures var before := ReadAccounts(s).value;
      var s' := UnselectOutcome(s, None).state;
      && AccountShaped(SelectAll(s', Accounts)) && ReadAccounts(s').Ok?
      && |ReadAccounts(s').value| == |before|
      && forall i :: 0 <= i < |before| ==> ReadAccounts(s').value[i] == before[i].(selected := false)
  {
    var v := ReadAccounts(s).value;
    var sel := Selected(v);
    assert UnselectOutcome(s, None) == WriteSelected(s, sel, false);
    NamesUnique(s);
    DistinctFilter(v);
    WriteSelectedEffect(s, sel, false);
    SelectedNamesAreSelected(v);
  }

  lemma SelectedNamesAreSelected(v: seq<Account>)
    requires DistinctNames(v)
    ensures forall i :: 0 <= i < |v| ==> Flagged(v, NamesOf(Selected(v)), false)[i] == v[i].(selected := false)
  {
    forall i | 0 <= i < |v| && v[i].name in NamesOf(Selected(v)) ensures v[i].selected {
      var b :| b in Selected(v) && b.name == v[i].name;
      var j :| 0 <= j < |v| && v[j] == b;
      assert v[j].name == v[i].name;
    }
  }

  /** `unselect` with a name that designates no account fails and leaves
      the store as it was. */
  lemma UnselectUnknownFails(s: State, x: string)
    requires AccountShaped(SelectAll(s, Accounts)) && ReadAccounts(s).Ok?
    requires forall a | a in ReadAccounts(s).value :: !Names(a, x)
    ensures UnselectOutcome(s, Some(x)) == Outcome(s, Err(NotFound))
  {
  }

  /** `alias` sets the alias of the resolved account and changes nothing
      else. */
  lemma AliasSetsAlias(s: State, x: string, alias: string)
    requires Valid(s) && AccountShaped(SelectAll(s, Accounts)) && ReadAccounts(s).Ok?
    requires AliasOutcome(s, x, alias).result.Ok?
    ensures var before := ReadAccounts(s).value;
      var s' := AliasOutcome(s, x, alias).state;
      && FirstNamed(before, x).Some?
      && AccountShaped(SelectAll(s', Accounts))
      && ReadAccounts(s') == Ok(before[FirstNamed(before, x).value := before[FirstNamed(before, x).value].(alias := Some(alias))])
  {
    var before := ReadAccounts(s).value;
    var k := FirstNamed(before, x).value;
    UpdateAccountAt(s, k, before[k].(alias := Some(alias)));
  }

  /** `delete_alias` clears the alias of the account the alias designates
      and changes nothing else. */
  lemma DeleteAliasClears(s: State, alias: string)
    requires Valid(s) && AccountShaped(SelectAll(s, Accounts)) && ReadAccounts(s).Ok?
    requires DeleteAliasOutcome(s, alias).result.Ok?
    ensures var before := ReadAccounts(s).value;
      var s' := DeleteAliasOutcome(s, alias).state;
      && FirstNamed(before, alias).Some?
      && AccountShaped(SelectAll(s', Accounts))
      && ReadAccounts(s') == Ok(before[FirstNamed(before, alias).value := before[FirstNamed(before, alias).value].(alias := None)])
  {
    var before := ReadAccounts(s).value;
    var k := FirstNamed(before, alias).value;
    UpdateAccountAt(s, k, before[k].(alias := None));
  }

  // -----------------------------------------------------------------------
  // list

  datatype Listing = Listing(columns: seq<string>, rows: seq<seq<string>>)

  function ListRow(a: Account): seq<string> {
    [a.name, a.alias.GetOr(""), if a.selected then OK else ""]
  }

  /** `list`: one row per account, in stored order. */
  function List(accts: seq<Account>): (l: Listing)
  {
    Listing(["Name", "Alias", "Selected"], seq(|accts|, i requires 0 <= i < |accts| => ListRow(accts[i])))
  }

  /** The listing has a row per account under its three columns; the
      marker column shows exactly the selection and the alias column shows
      the alias, so an account with a non-empty alias can be told from one
      without. */
  lemma ListShowsAccounts(accts: seq<Account>)
    ensures var l := List(accts);
      && |l.rows| == |accts|
      && (forall i :: 0 <= i < |accts| ==> |l.rows[i]| == |l.columns| && l.rows[i][0] == accts[i].name)
      && (forall i :: 0 <= i < |accts| ==> (l.rows[i][2] == OK <==> accts[i].selected))
      && (forall i :: 0 <= i < |accts| && accts[i].alias.Some? ==> l.rows[i][1] == accts[i].alias.value)
      && (forall i :: 0 <= i < |accts| && accts[i].alias.None? ==> l.rows[i][1] == "")
  {
  }

  /** The accounts the listing marks are those `get_account_or_selected`
      returns with no name. */
  lemma ListMarksSelection(accts: seq<Account>)
    ensures forall a :: a in Resolve(accts, None).value <==>
      exists i :: 0 <= i < |accts| && accts[i] == a && List(accts).rows[i][2] == OK
  {
    ListShowsAccounts(accts);
  }
}
