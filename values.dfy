/** Stored values and the conversions between the program's records and the
    rows of the `accounts`, `transactions` and `tag_rules` tables. */
module Values {
  import opened Wrappers
  import opened Numerals
  import opened Dates

  /** A SQLite value. */
  datatype Value = Null | Integer(i: int) | Real(r: real) | Text(s: string)

  /** A row image: the values of a table's fields, in declaration order. */
  type Row = seq<Value>

  datatype TransactionType = Debit | Credit | DirectDebit

  /** An account as the storage layer converts it: its name is the key. */
  datatype Account = Account(name: string, alias: Option<string>, selected: bool)

  datatype Transaction = Transaction(
    id: Option<int>,
    accountName: string,
    postedDate: Date,
    description: string,
    debitAmount: real,
    creditAmount: real,
    balance: real,
    transactionType: TransactionType,
    currency: string)

  datatype TagRule = TagRule(
    id: Option<int>,
    tag: string,
    humanReadable: string,
    transactionId: Option<int>,
    descriptionContains: Option<string>,
    transactionType: Option<TransactionType>,
    amountMin: Option<real>,
    amountMax: Option<real>,
    fromDate: Option<Date>,
    toDate: Option<Date>)

  const AccountArity: nat := 3
  const TransactionArity: nat := 9
  const TagRuleArity: nat := 10

  const NotText: string := "the stored value is not a string"
  const NotInteger: string := "the stored value is not an integer"
  const NotReal: string := "the stored value is not a floating-point number"

  predicate IsI64(i: int) { I64Min <= i <= I64Max }

  predicate ValidOptionalId(id: Option<int>) { id.Some? ==> IsI64(id.value) }

  predicate ValidTransaction(t: Transaction) {
    ValidOptionalId(t.id) && Valid(t.postedDate)
  }

  predicate ValidTagRule(r: TagRule) {
    ValidOptionalId(r.id) && ValidOptionalId(r.transactionId)
    && (r.fromDate.Some? ==> Valid(r.fromDate.value))
    && (r.toDate.Some? ==> Valid(r.toDate.value))
  }

  // ---------------------------------------------------------------------
  // Field conversions

  function TextFrom(v: Value): (r: Result<string>)
    ensures r.Ok? <==> v.Text?
  {
    if v.Text? then Ok(v.s) else Err(NotText)
  }

  function OptionalTextFrom(v: Value): (r: Result<Option<string>>)
    ensures r.Ok? <==> v.Null? || v.Text?
  {
    match v
    case Null => Ok(None)
    case Text(s) => Ok(Some(s))
    case _ => Err(NotText)
  }

  function OptionalTextTo(o: Option<string>): Value {
    if o.Some? then Text(o.value) else Null
  }

  function IntegerFrom(v: Value): (r: Result<int>)
    ensures r.Ok? <==> v.Integer?
  {
    if v.Integer? then Ok(v.i) else Err(NotInteger)
  }

  function OptionalIntegerFrom(v: Value): (r: Result<Option<int>>)
    ensures r.Ok? <==> v.Null? || v.Integer?
  {
    match v
    case Null => Ok(None)
    case Integer(i) => Ok(Some(i))
    case _ => Err(NotInteger)
  }

  function OptionalIntegerTo(o: Option<int>): Value {
    if o.Some? then Integer(o.value) else Null
  }

  /** The work-around for REAL columns that read back as INTEGER. */
  function AsFloat(v: Value): Value {
    if v.Integer? then Real(v.i as real) else v
  }

  function RealFrom(v: Value): (r: Result<real>)
    ensures r.Ok? <==> AsFloat(v).Real?
  {
    var w := AsFloat(v);
    if w.Real? then Ok(w.r) else Err(NotReal)
  }

  function OptionalRealFrom(v: Value): (r: Result<Option<real>>)
    ensures r.Ok? <==> v.Null? || AsFloat(v).Real?
  {
    match AsFloat(v)
    case Null => Ok(None)
    case Real(x) => Ok(Some(x))
    case _ => Err(NotReal)
  }

  function OptionalRealTo(o: Option<real>): Value {
    if o.Some? then Real(o.value) else Null
  }

  function TransactionTypeTo(t: TransactionType): Value {
    match t
    case Debit => Text("Debit")
    case Credit => Text("Credit")
    case DirectDebit => Text("Direct Debit")
  }

  function TransactionTypeFrom(v: Value): (r: Result<TransactionType>)
    ensures r.Ok? ==> TransactionTypeTo(r.value) == v
  {
    var s :- TextFrom(v);
    if s == "Debit" then Ok(Debit)
    else if s == "Credit" then Ok(Credit)
    else if s == "Direct Debit" then Ok(DirectDebit)
    else Err("unexpected transaction type, this is a bug")
  }

  lemma TransactionTypeRoundTrip(t: TransactionType)
    ensures TransactionTypeFrom(TransactionTypeTo(t)) == Ok(t)
  {
  }

  function OptionalTransactionTypeFrom(v: Value): (r: Result<Option<TransactionType>>)
    ensures r.Ok? && r.value.None? <==> v.Null?
  {
    if v.Null? then Ok(None)
    else
      var t :- TransactionTypeFrom(v);
      Ok(Some(t))
  }

  // ---------------------------------------------------------------------
  // Dates

  /** `from_naive_date_to_sqlite_value`: the two extreme dates are stored as
      "Inf" and "-Inf", every other date as `%Y-%m-%d`. */
  function DateTo(d: Date): (v: Value)
    requires Valid(d)
    ensures v.Text?
    ensures d == MaxDate <==> v == Text("Inf")
    ensures d == MinDate <==> v == Text("-Inf")
  {
    FormatNotInfinite(d);
    if d == MaxDate then Text("Inf")
    else if d == MinDate then Text("-Inf")
    else Text(Format(d, '-'))
  }

  /** `try_from_sqlite_value_to_naive_date` as written: only `%Y-%m-%d` is
      accepted, so the two sentinels written by `DateTo` are rejected. */
  function DateFromAsWritten(v: Value): (r: Result<Date>)
    ensures r.Ok? ==> Valid(r.value)
  {
    var s :- TextFrom(v);
    var d := Parse(s, '-');
    if d.Some? then Ok(d.value) else Err("couldn't parse transaction date")
  }

  /** The reader that inverts `DateTo`: the sentinels first, then `%Y-%m-%d`. */
  function DateFrom(v: Value): (r: Result<Date>)
    ensures r.Ok? ==> Valid(r.value)
  {
    var s :- TextFrom(v);
    if s == "Inf" then Ok(MaxDate)
    else if s == "-Inf" then Ok(MinDate)
    else
      var d := Parse(s, '-');
      if d.Some? then Ok(d.value) else Err("couldn't parse transaction date")
  }

  lemma FormatNotInfinite(d: Date)
    requires Valid(d)
    ensures Format(d, '-') != "Inf" && Format(d, '-') != "-Inf"
  {
    var s := Format(d, '-');
    var y := FormatYear(d.year);
    assert s[..|y|] == y;
    if 0 <= d.year <= 9999 {
      assert IsDigit(y[0]);
    } else {
      assert IsDigit(y[1]);
    }
  }

  /** The as-written reader cannot read back the stored form of
      `NaiveDate::MAX` or `NaiveDate::MIN`. */
  lemma InfiniteDatesDoNotRoundTrip()
    ensures DateFromAsWritten(DateTo(MaxDate)).Err?
    ensures DateFromAsWritten(DateTo(MinDate)).Err?
  {
    assert Parse("Inf", '-') == None by {
      assert ScanNumber("Inf", 1, 4) == None by {
        assert DigitRun("Inf", 4) == 0;
      }
    }
    assert Parse("-Inf", '-') == None by {
      assert "-Inf"[1..] == "Inf";
      assert DigitRun("Inf", 4) == 0;
    }
  }

  /** Every representable date, the sentinels included, reads back as itself. */
  lemma DateRoundTrip(d: Date)
    requires Valid(d)
    ensures DateFrom(DateTo(d)) == Ok(d)
  {
    if d != MaxDate && d != MinDate {
      FormatNotInfinite(d);
      FormatParseRoundTrip(d, '-');
    }
  }

  function OptionalDateTo(o: Option<Date>): Value
    requires o.Some? ==> Valid(o.value)
  {
    if o.Some? then DateTo(o.value) else Null
  }

  function OptionalDateFrom(v: Value): (r: Result<Option<Date>>)
    ensures r.Ok? && r.value.Some? ==> Valid(r.value.value)
    ensures r.Ok? && r.value.None? <==> v.Null?
  {
    if v.Null? then Ok(None)
    else
      var d :- DateFrom(v);
      Ok(Some(d))
  }

  // ---------------------------------------------------------------------
  // Records

  function AccountToRow(a: Account): (row: Row)
    ensures |row| == AccountArity && row[0] == Text(a.name)
  {
    [Text(a.name), OptionalTextTo(a.alias), Integer(if a.selected then 1 else 0)]
  }

  /** Reading an account back: `selected` is any positive integer. */
  function AccountFromRow(row: Row): (r: Result<Account>)
    requires |row| == AccountArity
    ensures r.Ok? ==> row[0] == Text(r.value.name)
  {
    var name :- TextFrom(row[0]);
    var alias :- OptionalTextFrom(row[1]);
    var selected :- IntegerFrom(row[2]);
    Ok(Account(name, alias, selected > 0))
  }

  lemma AccountRoundTrip(a: Account)
    ensures AccountFromRow(AccountToRow(a)) == Ok(a)
  {
  }

  function TransactionToRow(t: Transaction): (row: Row)
    requires ValidTransaction(t)
    ensures |row| == TransactionArity && row[0] == OptionalIntegerTo(t.id)
  {
    [OptionalIntegerTo(t.id), Text(t.accountName), DateTo(t.postedDate), Text(t.description),
     Real(t.debitAmount), Real(t.creditAmount), Real(t.balance),
     TransactionTypeTo(t.transactionType), Text(t.currency)]
  }

  function TransactionFromRow(row: Row): (r: Result<Transaction>)
    requires |row| == TransactionArity
    ensures r.Ok? ==> row[0] == OptionalIntegerTo(r.value.id)
  {
    var id :- OptionalIntegerFrom(row[0]);
    var accountName :- TextFrom(row[1]);
    var postedDate :- DateFrom(row[2]);
    var description :- TextFrom(row[3]);
    var debit :- RealFrom(row[4]);
    var credit :- RealFrom(row[5]);
    var balance :- RealFrom(row[6]);
    var transactionType :- TransactionTypeFrom(row[7]);
    var currency :- TextFrom(row[8]);
    Ok(Transaction(id, accountName, postedDate, description, debit, credit, balance, transactionType, currency))
  }

  lemma TransactionRoundTrip(t: Transaction)
    requires ValidTransaction(t)
    ensures TransactionFromRow(TransactionToRow(t)) == Ok(t)
  {
    DateRoundTrip(t.postedDate);
    TransactionTypeRoundTrip(t.transactionType);
  }

  function TagRuleToRow(r: TagRule): (row: Row)
    requires ValidTagRule(r)
    ensures |row| == TagRuleArity && row[0] == OptionalIntegerTo(r.id)
  {
    [OptionalIntegerTo(r.id), Text(r.tag), Text(r.humanReadable), OptionalIntegerTo(r.transactionId),
     OptionalTextTo(r.descriptionContains),
     if r.transactionType.Some? then TransactionTypeTo(r.transactionType.value) else Null,
     OptionalRealTo(r.amountMin), OptionalRealTo(r.amountMax),
     OptionalDateTo(r.fromDate), OptionalDateTo(r.toDate)]
  }

  function TagRuleFromRow(row: Row): (r: Result<TagRule>)
    requires |row| == TagRuleArity
    ensures r.Ok? ==> row[0] == OptionalIntegerTo(r.value.id)
  {
    var id :- OptionalIntegerFrom(row[0]);
    var tag :- TextFrom(row[1]);
    var humanReadable :- TextFrom(row[2]);
    var transactionId :- OptionalIntegerFrom(row[3]);
    var descriptionContains :- OptionalTextFrom(row[4]);
    var transactionType :- OptionalTransactionTypeFrom(row[5]);
    var amountMin :- OptionalRealFrom(row[6]);
    var amountMax :- OptionalRealFrom(row[7]);
    var fromDate :- OptionalDateFrom(row[8]);
    var toDate :- OptionalDateFrom(row[9]);
    Ok(TagRule(id, tag, humanReadable, transactionId, descriptionContains, transactionType,
               amountMin, amountMax, fromDate, toDate))
  }

  /** Every tag rule, including one whose date bounds are the extreme dates
      that `parse_period` produces for ':', reads back as itself. */
  lemma TagRuleRoundTrip(r: TagRule)
    requires ValidTagRule(r)
    ensures TagRuleFromRow(TagRuleToRow(r)) == Ok(r)
  {
    TagRuleRowPlainFields(r);
    TagRuleRowTypedFields(r);
    TagRuleFromFields(TagRuleToRow(r), r);
  }

  lemma TagRuleRowPlainFields(r: TagRule)
    requires ValidTagRule(r)
    ensures var row := TagRuleToRow(r);
      && OptionalIntegerFrom(row[0]) == Ok(r.id) && TextFrom(row[1]) == Ok(r.tag)
      && TextFrom(row[2]) == Ok(r.humanReadable) && OptionalIntegerFrom(row[3]) == Ok(r.transactionId)
      && OptionalTextFrom(row[4]) == Ok(r.descriptionContains)
      && OptionalRealFrom(row[6]) == Ok(r.amountMin) && OptionalRealFrom(row[7]) == Ok(r.amountMax)
  {
  }

  lemma TagRuleRowTypedFields(r: TagRule)
    requires ValidTagRule(r)
    ensures var row := TagRuleToRow(r);
      && OptionalTransactionTypeFrom(row[5]) == Ok(r.transactionType)
      && OptionalDateFrom(row[8]) == Ok(r.fromDate) && OptionalDateFrom(row[9]) == Ok(r.toDate)
  {
    OptionalDateRoundTrip(r.fromDate);
    OptionalDateRoundTrip(r.toDate);
    OptionalTransactionTypeRoundTrip(r.transactionType);
  }

  /** The reader accepts a row whose every field reads back as the rule's. */
  lemma TagRuleFromFields(row: Row, r: TagRule)
    requires |row| == TagRuleArity
    requires OptionalIntegerFrom(row[0]) == Ok(r.id) && TextFrom(row[1]) == Ok(r.tag)
    requires TextFrom(row[2]) == Ok(r.humanReadable) && OptionalIntegerFrom(row[3]) == Ok(r.transactionId)
    requires OptionalTextFrom(row[4]) == Ok(r.descriptionContains)
    requires OptionalTransactionTypeFrom(row[5]) == Ok(r.transactionType)
    requires OptionalRealFrom(row[6]) == Ok(r.amountMin) && OptionalRealFrom(row[7]) == Ok(r.amountMax)
    requires OptionalDateFrom(row[8]) == Ok(r.fromDate) && OptionalDateFrom(row[9]) == Ok(r.toDate)
    ensures TagRuleFromRow(row) == Ok(r)
  {
  }

  lemma OptionalDateRoundTrip(o: Option<Date>)
    requires o.Some? ==> Valid(o.value)
    ensures OptionalDateFrom(OptionalDateTo(o)) == Ok(o)
  {
    if o.Some? {
      DateRoundTrip(o.value);
    }
  }

  lemma OptionalTransactionTypeRoundTrip(o: Option<TransactionType>)
    ensures OptionalTransactionTypeFrom(if o.Some? then TransactionTypeTo(o.value) else Null) == Ok(o)
  {
    if o.Some? {
      TransactionTypeRoundTrip(o.value);
    }
  }

  /** The as-written reader rejects a stored tag rule whose lower date bound
      is `NaiveDate::MIN`, which `parse_period(":-...")` produces. */
  function TagRuleFromRowAsWritten(row: Row): (r: Result<TagRule>)
    requires |row| == TagRuleArity
    ensures r.Ok? ==> row[0] == OptionalIntegerTo(r.value.id)
  {
    var id :- OptionalIntegerFrom(row[0]);
    var tag :- TextFrom(row[1]);
    var humanReadable :- TextFrom(row[2]);
    var transactionId :- OptionalIntegerFrom(row[3]);
    var descriptionContains :- OptionalTextFrom(row[4]);
    var transactionType :- OptionalTransactionTypeFrom(row[5]);
    var amountMin :- OptionalRealFrom(row[6]);
    var amountMax :- OptionalRealFrom(row[7]);
    var fromDate :- if row[8].Null? then Ok(None) else (var d :- DateFromAsWritten(row[8]); Ok(Some(d)));
    var toDate :- if row[9].Null? then Ok(None) else (var d :- DateFromAsWritten(row[9]); Ok(Some(d)));
    Ok(TagRule(id, tag, humanReadable, transactionId, descriptionContains, transactionType,
               amountMin, amountMax, fromDate, toDate))
  }

  lemma OpenLowerBoundRuleUnreadableAsWritten(r: TagRule)
    requires ValidTagRule(r) && r.fromDate == Some(MinDate)
    ensures TagRuleFromRowAsWritten(TagRuleToRow(r)).Err?
  {
    TagRuleRowPlainFields(r);
    TagRuleRowTypedFields(r);
    InfiniteDatesDoNotRoundTrip();
    FromDateRejectedAsWritten(TagRuleToRow(r), r);
  }

  /** A row whose earlier fields read back but whose lower bound the reader rejects is refused. */
  lemma FromDateRejectedAsWritten(row: Row, r: TagRule)
    requires |row| == TagRuleArity
    requires OptionalIntegerFrom(row[0]) == Ok(r.id) && TextFrom(row[1]) == Ok(r.tag)
    requires TextFrom(row[2]) == Ok(r.humanReadable) && OptionalIntegerFrom(row[3]) == Ok(r.transactionId)
    requires OptionalTextFrom(row[4]) == Ok(r.descriptionContains)
    requires OptionalTransactionTypeFrom(row[5]) == Ok(r.transactionType)
    requires OptionalRealFrom(row[6]) == Ok(r.amountMin) && OptionalRealFrom(row[7]) == Ok(r.amountMax)
    requires !row[8].Null? && DateFromAsWritten(row[8]).Err?
    ensures TagRuleFromRowAsWritten(row).Err?
  {
  }
}
