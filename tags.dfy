/** The tag-rule commands (src/commands/tags.rs): listing the rules,
    optionally only those whose tag starts with a prefix, in id order;
    adding a rule with its human-readable description unless an equal rule
    exists; and deleting a rule by its id as typed on the command line. */
module Tags {
  import opened Wrappers
  import opened Numerals
  import Dates
  import opened Values
  import opened Store
  import opened StoreFacts
  import opened SqliteImpl
  import opened Strings

  const NotANumber: string := "id is not a number"
  const CannotInsert: string := "Tag can't be looked up, but also can't be inserted?"

  /** `f64::MAX` exactly, (2^53 - 1) * 2^971, and `f64::MIN`. */
  const F64Max: real := 179769313486231570814527423731704356798070567525844996598917476803157260780028538760589558632766878171540458953514382464234321326889464182768467546703537516986049910576551282076245490090389328944075868508455133942304583236903222948165808559332123348274797826204144723168738177180919299881250404026184124858368.0
  const F64Min: real := -F64Max

  const U64Modulus: int := 0x1_0000_0000_0000_0000

  // -----------------------------------------------------------------------
  // list_tag_rules

  predicate RuleShaped(rows: seq<Row>) {
    forall i :: 0 <= i < |rows| ==> |rows[i]| == TagRuleArity && rows[i][0].Integer?
  }

  /** `get_all` for tag rules: the rows in stored order, failing on the
      first row whose values do not convert. */
  function TagRulesFrom(rows: seq<Row>): (r: Result<seq<TagRule>>)
    requires RuleShaped(rows)
    ensures r.Ok? ==> |r.value| == |rows|
    ensures r.Ok? ==> forall i :: 0 <= i < |rows| ==>
      TagRuleFromRow(rows[i]) == Ok(r.value[i]) && r.value[i].id == Some(rows[i][0].i)
    ensures r.Ok? ==> Identified(r.value)
    ensures r.Err? ==> exists i :: 0 <= i < |rows| && TagRuleFromRow(rows[i]).Err?
  {
    if |rows| == 0 then Ok([])
    else
      var a :- TagRuleFromRow(rows[0]);
      var rest :- TagRulesFrom(rows[1..]);
      Ok([a] + rest)
  }

  /** Every rule has been stored, so `tr.id.unwrap()` cannot fail. */
  predicate Identified(rules: seq<TagRule>) {
    forall x | x in rules :: x.id.Some?
  }

  /** `tag.filter(|t| !tr.tag.starts_with(t)).is_none()`. */
  predicate Shown(r: TagRule, prefix: Option<string>) {
    prefix.None? || StartsWith(r.tag, prefix.value)
  }

  function Keep(rules: seq<TagRule>, prefix: Option<string>): (r: seq<TagRule>)
    ensures forall x :: x in r <==> x in rules && Shown(x, prefix)
  {
    if |rules| == 0 then []
    else
      assert forall x :: x in rules <==> x == rules[0] || x in rules[1..];
      (if Shown(rules[0], prefix) then [rules[0]] else []) + Keep(rules[1..], prefix)
  }

  /** The order of `sort_by_key(|tr| tr.id)`: `None` first, then by value. */
  predicate IdLe(a: TagRule, b: TagRule) {
    a.id.None? || (b.id.Some? && a.id.value <= b.id.value)
  }

  predicate SortedById(rules: seq<TagRule>) {
    forall i, j :: 0 <= i < j < |rules| ==> IdLe(rules[i], rules[j])
  }

  /** Both rules have ids and the first one's is the smaller. */
  predicate IdBelow(a: TagRule, b: TagRule) {
    a.id.Some? && b.id.Some? && a.id.value < b.id.value
  }

  /** Ids strictly ascending: how a valid store keeps its rules. */
  predicate AscendingIds(rules: seq<TagRule>) {
    forall i, j :: 0 <= i < j < |rules| ==> IdBelow(rules[i], rules[j])
  }

  /** Inserting `x` before the first rule it does not follow, so that rules
      with equal keys keep their order. */
  function InsertById(x: TagRule, rules: seq<TagRule>): (r: seq<TagRule>)
    ensures multiset(r) == multiset(rules) + multiset{x}
  {
    if |rules| == 0 then [x]
    else if IdLe(x, rules[0]) then [x] + rules
    else
      assert rules == [rules[0]] + rules[1..];
      [rules[0]] + InsertById(x, rules[1..])
  }

  /** A stable sort by id (insertion sort). */
  function SortById(rules: seq<TagRule>): (r: seq<TagRule>)
    ensures multiset(r) == multiset(rules)
  {
    if |rules| == 0 then []
    else
      assert rules == [rules[0]] + rules[1..];
      InsertById(rules[0], SortById(rules[1..]))
  }

  lemma {:induction false} InsertByIdSorted(x: TagRule, rules: seq<TagRule>)
    requires SortedById(rules)
    ensures SortedById(InsertById(x, rules))
    decreases |rules|
  {
    if |rules| > 0 && !IdLe(x, rules[0]) {
      var rest := InsertById(x, rules[1..]);
      SortedTail(rules);
      InsertByIdSorted(x, rules[1..]);
      InsertedAbove(x, rules, rest);
      SortedCons(rules[0], rest);
    } else if |rules| > 0 {
      HeadBelowAll(x, rules);
      SortedCons(x, rules);
    }
  }

  lemma SortedTail(rules: seq<TagRule>)
    requires SortedById(rules) && |rules| > 0
    ensures SortedById(rules[1..])
  {
    forall i, j | 0 <= i < j < |rules[1..]| ensures IdLe(rules[1..][i], rules[1..][j]) {
      assert rules[1..][i] == rules[i + 1] && rules[1..][j] == rules[j + 1];
    }
  }

  /** What the insertion leaves after the head of the rules lies above it. */
  lemma InsertedAbove(x: TagRule, rules: seq<TagRule>, rest: seq<TagRule>)
    requires SortedById(rules) && |rules| > 0 && !IdLe(x, rules[0])
    requires multiset(rest) == multiset(rules[1..]) + multiset{x}
    ensures forall y :: y in rest ==> IdLe(rules[0], y)
  {
    forall y | y in rest ensures IdLe(rules[0], y) {
      assert y in multiset(rest);
      if y != x {
        assert y in multiset(rules[1..]);
        var m :| 0 <= m < |rules[1..]| && rules[1..][m] == y;
        assert rules[m + 1] == y;
      }
    }
  }

  lemma HeadBelowAll(x: TagRule, rules: seq<TagRule>)
    requires SortedById(rules) && |rules| > 0 && IdLe(x, rules[0])
    ensures forall y :: y in rules ==> IdLe(x, y)
  {
    forall y | y in rules ensures IdLe(x, y) {
      var m :| 0 <= m < |rules| && rules[m] == y;
      assert m == 0 || IdLe(rules[0], rules[m]);
    }
  }

  lemma SortedCons(h: TagRule, rest: seq<TagRule>)
    requires SortedById(rest) && forall y :: y in rest ==> IdLe(h, y)
    ensures SortedById([h] + rest)
  {
    var r := [h] + rest;
    forall i, j | 0 <= i < j < |r| ensures IdLe(r[i], r[j]) {
      assert r[j] == rest[j - 1] && rest[j - 1] in rest;
      if i > 0 {
        assert r[i] == rest[i - 1];
      }
    }
  }

  /** The sort orders the rules by id and loses or adds none. */
  lemma {:induction false} SortByIdSorts(rules: seq<TagRule>)
    ensures SortedById(SortById(rules))
    ensures multiset(SortById(rules)) == multiset(rules)
    decreases |rules|
  {
    if |rules| > 0 {
      SortByIdSorts(rules[1..]);
      InsertByIdSorted(rules[0], SortById(rules[1..]));
    }
  }

  /** Rules already in id order are left as they are. */
  lemma {:induction false} SortSorted(rules: seq<TagRule>)
    requires SortedById(rules)
    ensures SortById(rules) == rules
    decreases |rules|
  {
    if |rules| > 0 {
      SortSorted(rules[1..]);
      assert rules[1..] == [] || IdLe(rules[0], rules[1..][0]);
      assert rules == [rules[0]] + rules[1..];
    }
  }

  /** In ascending order, the first rule's id is below that of any later rule. */
  lemma HeadIdBelow(rules: seq<TagRule>, x: TagRule)
    requires AscendingIds(rules) && |rules| > 0 && x in rules[1..]
    ensures IdBelow(rules[0], x)
  {
    var m :| 0 <= m < |rules[1..]| && rules[1..][m] == x;
    assert rules[m + 1] == x;
  }

  lemma TailAscending(rules: seq<TagRule>)
    requires AscendingIds(rules) && |rules| > 0
    ensures AscendingIds(rules[1..])
  {
    var t := rules[1..];
    forall i, j | 0 <= i < j < |t| ensures IdBelow(t[i], t[j]) {
      assert t[i] == rules[i + 1] && t[j] == rules[j + 1];
    }
  }

  lemma ConsAscending(x: TagRule, rest: seq<TagRule>)
    requires AscendingIds(rest)
    requires forall y | y in rest :: IdBelow(x, y)
    ensures AscendingIds([x] + rest)
  {
    var k := [x] + rest;
    forall i, j | 0 <= i < j < |k| ensures IdBelow(k[i], k[j]) {
      assert k[j] == rest[j - 1] && k[j] in rest;
      if i > 0 {
        assert k[i] == rest[i - 1];
      }
    }
  }

  /** Filtering keeps the ids ascending. */
  lemma {:induction false} KeepAscending(rules: seq<TagRule>, prefix: Option<string>)
    requires AscendingIds(rules)
    ensures AscendingIds(Keep(rules, prefix))
    decreases |rules|
  {
    if |rules| > 0 {
      TailAscending(rules);
      KeepAscending(rules[1..], prefix);
      var rest := Keep(rules[1..], prefix);
      if Shown(rules[0], prefix) {
        forall y | y in rest ensures IdBelow(rules[0], y) {
          HeadIdBelow(rules, y);
        }
        ConsAscending(rules[0], rest);
        assert Keep(rules, prefix) == [rules[0]] + rest;
      } else {
        assert Keep(rules, prefix) == rest;
      }
    }
  }

  datatype Listing = Listing(columns: seq<string>, rows: seq<seq<string>>)

  function RuleRow(r: TagRule): seq<string>
    requires r.id.Some?
  {
    [IntToString(r.id.value), r.tag, r.humanReadable]
  }

  /** `list_tag_rules`. */
  function ListTagRules(s: State, prefix: Option<string>): (r: Result<Listing>)
    requires RuleShaped(SelectAll(s, TagRules))
  {
    var rules :- TagRulesFrom(SelectAll(s, TagRules));
    var kept := Keep(rules, prefix);
    var shown := SortById(kept);
    assert Identified(shown) by {
      forall x | x in shown ensures x.id.Some? {
        assert x in multiset(shown);
        assert x in multiset(kept);
      }
    }
    Ok(Listing(["ID", "Tag", "Description"],
               seq(|shown|, i requires 0 <= i < |shown| => RuleRow(shown[i]))))
  }

  lemma ValidRuleShaped(s: State)
    requires Valid(s)
    ensures RuleShaped(SelectAll(s, TagRules))
    ensures |SelectAll(s, TagRules)| == |s.tables.tagRules|
    ensures forall i :: 0 <= i < |s.tables.tagRules| ==> SelectAll(s, TagRules)[i] == s.tables.tagRules[i].image
    ensures forall i :: 0 <= i < |s.tables.tagRules| ==> SelectAll(s, TagRules)[i][0] == Integer(s.tables.tagRules[i].rowid)
  {
    var rows := s.tables.Get(TagRules);
    forall i | 0 <= i < |rows| ensures |rows[i].image| == TagRuleArity && rows[i].image[0] == Integer(rows[i].rowid) {
      assert WellFormedEntry(TagRules, rows[i]);
    }
  }

  /** The stored rules, read back, have strictly ascending ids. */
  lemma StoredAscending(s: State)
    requires Valid(s)
    ensures RuleShaped(SelectAll(s, TagRules))
    ensures TagRulesFrom(SelectAll(s, TagRules)).Ok? ==> AscendingIds(TagRulesFrom(SelectAll(s, TagRules)).value)
  {
    ValidRuleShaped(s);
    ValidSorted(s, TagRules);
    var rows := SelectAll(s, TagRules);
    if TagRulesFrom(rows).Ok? {
      var rules := TagRulesFrom(rows).value;
      forall i | 0 <= i < |rules| ensures rules[i].id == Some(s.tables.tagRules[i].rowid) {
        assert rows[i][0] == Integer(s.tables.tagRules[i].rowid);
      }
      AscendingFromRowids(rules, s.tables.tagRules);
    }
  }

  /** Rules that carry the rowids of rows sorted by rowid have ascending ids. */
  lemma AscendingFromRowids(rules: seq<TagRule>, entries: seq<Entry>)
    requires |rules| == |entries| && SortedByRowid(entries)
    requires forall i :: 0 <= i < |rules| ==> rules[i].id == Some(entries[i].rowid)
    ensures AscendingIds(rules)
  {
  }

  /** The listing shows exactly the stored rules whose tag starts with the
      prefix (every rule without one), one row each, in ascending id order,
      which is the order they are stored in. */
  lemma ListTagRulesMeaning(s: State, prefix: Option<string>)
    requires Valid(s)
    ensures RuleShaped(SelectAll(s, TagRules))
    ensures ListTagRules(s, prefix).Ok? <==> TagRulesFrom(SelectAll(s, TagRules)).Ok?
    ensures ListTagRules(s, prefix).Ok? ==>
      var rules := TagRulesFrom(SelectAll(s, TagRules)).value;
      var kept := Keep(rules, prefix);
      var l := ListTagRules(s, prefix).value;
      && (forall x :: x in kept <==> x in rules && Shown(x, prefix))
      && AscendingIds(kept)
      && l.columns == ["ID", "Tag", "Description"]
      && |l.rows| == |kept|
      && forall i :: 0 <= i < |kept| ==> kept[i].id.Some? && l.rows[i] == RuleRow(kept[i])
  {
    StoredAscending(s);
    if TagRulesFrom(SelectAll(s, TagRules)).Ok? {
      var rules := TagRulesFrom(SelectAll(s, TagRules)).value;
      KeepAscending(rules, prefix);
      SortSorted(Keep(rules, prefix));
    }
  }

  // -----------------------------------------------------------------------
  // add_tag_rule

  /** The arguments of `add_tag_rule` after the tag. Amounts are `f64`
      values, taken here as reals. */
  datatype RuleArgs = RuleArgs(
    tag: string,
    transactionId: Option<nat>,
    descriptionContains: Option<string>,
    transactionType: Option<TransactionType>,
    amountMin: Option<real>,
    amountMax: Option<real>,
    from: Option<Dates.Date>,
    to: Option<Dates.Date>)

  /** A `usize` transaction id and `NaiveDate` bounds. */
  predicate ValidArgs(q: RuleArgs) {
    (q.transactionId.Some? ==> q.transactionId.value < U64Modulus)
    && (q.from.Some? ==> Dates.Valid(q.from.value))
    && (q.to.Some? ==> Dates.Valid(q.to.value))
  }

  /** `t as i64` on a 64-bit `usize`: values from 2^63 on wrap to negative. */
  function AsI64(t: nat): (r: int)
    requires t < U64Modulus
    ensures I64Min <= r <= I64Max
    ensures r % U64Modulus == t
    ensures t <= I64Max ==> r == t
  {
    if t <= I64Max then t else t - U64Modulus
  }

  /** `{tt:?}`. */
  function TypeName(tt: TransactionType): string {
    match tt
    case Debit => "Debit"
    case Credit => "Credit"
    case DirectDebit => "DirectDebit"
  }

  /** The date clause: a lone bound that is the extreme date says nothing. */
  function DateClause(from: Option<Dates.Date>, to: Option<Dates.Date>): seq<string>
    requires from.Some? ==> Dates.Valid(from.value)
    requires to.Some? ==> Dates.Valid(to.value)
  {
    match (from, to)
    case (Some(f), None) => if f != Dates.MinDate then ["the date is after " + Dates.Format(f, '/')] else []
    case (None, Some(t)) => if t != Dates.MaxDate then ["the date is before " + Dates.Format(t, '/')] else []
    case (Some(f), Some(t)) => ["the date is between " + Dates.Format(f, '/') + " and " + Dates.Format(t, '/')]
    case (None, None) => []
  }

  /** The clauses of the description, in order. `show` is Rust's `Display`
      of an `f64`. */
  function Clauses(q: RuleArgs, show: real -> string): seq<string>
    requires ValidArgs(q)
  {
    FilterClauses(q, show) + DateClause(q.from, q.to)
  }

  /** The clauses before the date clause. */
  function FilterClauses(q: RuleArgs, show: real -> string): seq<string> {
    (if q.transactionId.Some? then ["the transaction id is '" + NatToString(q.transactionId.value) + "'"] else [])
    + (if q.descriptionContains.Some? then ["the description contains '" + q.descriptionContains.value + "'"] else [])
    + (if q.amountMin.Some? && q.amountMin.value != F64Min then ["the amount is larger or equal to '" + show(q.amountMin.value) + "'"] else [])
    + (if q.amountMax.Some? && q.amountMax.value != F64Max then ["the amount is smaller than '" + show(q.amountMax.value) + "'"] else [])
  }

  function Describe(q: RuleArgs, show: real -> string): string
    requires ValidArgs(q)
  {
    "Apply tag '" + q.tag + "' to "
    + (if q.transactionType.Some? then TypeName(q.transactionType.value) + " " else "any")
    + " transactions where " + Join(Clauses(q, show), ", and ") + "."
  }

  /** The builder as the source writes it: clauses pushed one at a time. */
  method HumanReadable(q: RuleArgs, show: real -> string) returns (text: string)
    requires ValidArgs(q)
    ensures text == Describe(q, show)
  {
    var parts: seq<string> := [];
    if q.transactionId.Some? {
      parts := parts + ["the transaction id is '" + NatToString(q.transactionId.value) + "'"];
    }
    if q.descriptionContains.Some? {
      parts := parts + ["the description contains '" + q.descriptionContains.value + "'"];
    }
    if q.amountMin.Some? && q.amountMin.value != F64Min {
      parts := parts + ["the amount is larger or equal to '" + show(q.amountMin.value) + "'"];
    }
    if q.amountMax.Some? && q.amountMax.value != F64Max {
      parts := parts + ["the amount is smaller than '" + show(q.amountMax.value) + "'"];
    }
    assert parts == FilterClauses(q, show);
    parts := parts + DateClause(q.from, q.to);
    var kind := if q.transactionType.Some? then TypeName(q.transactionType.value) + " " else "any";
    text := "Apply tag '" + q.tag + "' to " + kind + " transactions where " + Join(parts, ", and ") + ".";
    DescribeParts(q, show, parts);
  }

  lemma DescribeParts(q: RuleArgs, show: real -> string, parts: seq<string>)
    requires ValidArgs(q) && parts == Clauses(q, show)
    ensures Describe(q, show) == "Apply tag '" + q.tag + "' to "
      + (if q.transactionType.Some? then TypeName(q.transactionType.value) + " " else "any")
      + " transactions where " + Join(parts, ", and ") + "."
  {
  }

  /** Every filter given contributes one clause, except an amount bound
      that is the extreme `f64` and a lone date bound that is the extreme
      date; two date bounds always make one "between" clause. */
  lemma ClausesCount(q: RuleArgs, show: real -> string)
    requires ValidArgs(q)
    ensures |Clauses(q, show)| ==
      (if q.transactionId.Some? then 1 else 0)
      + (if q.descriptionContains.Some? then 1 else 0)
      + (if q.amountMin.Some? && q.amountMin.value != F64Min then 1 else 0)
      + (if q.amountMax.Some? && q.amountMax.value != F64Max then 1 else 0)
      + (if q.from.Some? && q.to.Some? then 1
         else if q.from.Some? && q.from.value != Dates.MinDate then 1
         else if q.to.Some? && q.to.value != Dates.MaxDate then 1
         else 0)
    ensures q.from.Some? && q.to.Some? ==>
      Clauses(q, show)[|Clauses(q, show)| - 1] == "the date is between " + Dates.Format(q.from.value, '/') + " and " + Dates.Format(q.to.value, '/')
  {
    FilterClausesCount(q, show);
    DateClauseCount(q.from, q.to);
    if q.from.Some? && q.to.Some? {
      ClausesLast(q, show);
    }
  }

  lemma FilterClausesCount(q: RuleArgs, show: real -> string)
    ensures |FilterClauses(q, show)| ==
      (if q.transactionId.Some? then 1 else 0)
      + (if q.descriptionContains.Some? then 1 else 0)
      + (if q.amountMin.Some? && q.amountMin.value != F64Min then 1 else 0)
      + (if q.amountMax.Some? && q.amountMax.value != F64Max then 1 else 0)
  {
  }

  lemma DateClauseCount(from: Option<Dates.Date>, to: Option<Dates.Date>)
    requires from.Some? ==> Dates.Valid(from.value)
    requires to.Some? ==> Dates.Valid(to.value)
    ensures |DateClause(from, to)| ==
      (if from.Some? && to.Some? then 1
       else if from.Some? && from.value != Dates.MinDate then 1
       else if to.Some? && to.value != Dates.MaxDate then 1
       else 0)
  {
  }

  lemma ClausesLast(q: RuleArgs, show: real -> string)
    requires ValidArgs(q) && q.from.Some? && q.to.Some?
    ensures var c := Clauses(q, show);
      |c| > 0 && c[|c| - 1] == "the date is between " + Dates.Format(q.from.value, '/') + " and " + Dates.Format(q.to.value, '/')
  {
    var f := FilterClauses(q, show);
    var d := DateClause(q.from, q.to);
    assert (f + d)[|f + d| - 1] == d[0];
  }

  /** The extreme amounts describe the same rule as no bound at all. */
  lemma AmountSentinelsOmitted(q: RuleArgs, show: real -> string)
    requires ValidArgs(q)
    ensures Describe(q.(amountMin := Some(F64Min)), show) == Describe(q.(amountMin := None), show)
    ensures Describe(q.(amountMax := Some(F64Max)), show) == Describe(q.(amountMax := None), show)
  {
    assert FilterClauses(q.(amountMin := Some(F64Min)), show) == FilterClauses(q.(amountMin := None), show);
    assert FilterClauses(q.(amountMax := Some(F64Max)), show) == FilterClauses(q.(amountMax := None), show);
  }

  /** A lone extreme date describes the same rule as no date at all. */
  lemma DateSentinelsOmitted(q: RuleArgs, show: real -> string)
    requires ValidArgs(q)
    ensures q.to.None? ==> Describe(q.(from := Some(Dates.MinDate)), show) == Describe(q.(from := None), show)
    ensures q.from.None? ==> Describe(q.(to := Some(Dates.MaxDate)), show) == Describe(q.(to := None), show)
  {
    if q.to.None? {
      var q1, q0 := q.(from := Some(Dates.MinDate)), q.(from := None);
      FilterClausesIgnoreDates(q, q1);
      FilterClausesIgnoreDates(q, q0);
      DescribeByClauses(q1, q0, show);
    }
    if q.from.None? {
      var q1, q0 := q.(to := Some(Dates.MaxDate)), q.(to := None);
      FilterClausesIgnoreDates(q, q1);
      FilterClausesIgnoreDates(q, q0);
      DescribeByClauses(q1, q0, show);
    }
  }

  lemma FilterClausesIgnoreDates(q: RuleArgs, q': RuleArgs)
    requires q'.transactionId == q.transactionId && q'.descriptionContains == q.descriptionContains
    requires q'.amountMin == q.amountMin && q'.amountMax == q.amountMax
    ensures forall show :: FilterClauses(q', show) == FilterClauses(q, show)
  {
  }

  /** Two argument sets with the same tag, type and clauses are described alike. */
  lemma DescribeByClauses(q: RuleArgs, q': RuleArgs, show: real -> string)
    requires ValidArgs(q) && ValidArgs(q')
    requires q.tag == q'.tag && q.transactionType == q'.transactionType
    requires FilterClauses(q, show) == FilterClauses(q', show) && DateClause(q.from, q.to) == DateClause(q'.from, q'.to)
    ensures Describe(q, show) == Describe(q', show)
  {
  }

  /** The rule `add_tag_rule` stores: no id yet, the description, and the
      filters as given. */
  function RuleOf(q: RuleArgs, show: real -> string): (r: TagRule)
    requires ValidArgs(q)
    ensures ValidTagRule(r)
  {
    TagRule(None, q.tag, Describe(q, show),
            if q.transactionId.Some? then Some(AsI64(q.transactionId.value)) else None,
            q.descriptionContains, q.transactionType, q.amountMin, q.amountMax, q.from, q.to)
  }

  datatype AddTagRuleResult = Added(tagRuleId: int, taggedTransactions: nat) | NotUnique(tagRuleId: int)

  /** `add_tag_rule`. `lookup` is what `lookup_tag_rule` answers and
      `count` what `count_matching_transactions` answers for an id; both
      run SQL that is not part of this model. */
  function AddTagRuleOutcome(s: State, q: RuleArgs, show: real -> string,
                             lookup: Result<Option<int>>, count: int -> Result<nat>): Outcome<AddTagRuleResult>
    requires ValidArgs(q)
  {
    match lookup
    case Err(e) => Outcome(s, Err(e))
    case Ok(Some(id)) => Outcome(s, Ok(NotUnique(id)))
    case Ok(None) =>
      var o := InsertOrGet(s, TagRules, TagRuleToRow(RuleOf(q, show)));
      match o.result
      case Err(e) => Outcome(o.state, Err(e))
      case Ok(Existing(_)) => Outcome(o.state, Err(CannotInsert))
      case Ok(New(row)) =>
        match TagRuleFromRow(row)
        case Err(e) => Outcome(o.state, Err(e))
        case Ok(m) =>
          var id := m.id.value;
          match count(id)
          case Err(e) => Outcome(o.state, Err(e))
          case Ok(n) => Outcome(o.state, Ok(Added(id, n)))
  }

  method AddTagRule(db: SqliteDatabase, q: RuleArgs, show: real -> string,
                    lookup: Result<Option<int>>, count: int -> Result<nat>) returns (r: Result<AddTagRuleResult>)
    requires ValidArgs(q)
    modifies db
    ensures db.Snapshot() == AddTagRuleOutcome(old(db.Snapshot()), q, show, lookup, count).state
    ensures r == AddTagRuleOutcome(old(db.Snapshot()), q, show, lookup, count).result
  {
    var text := HumanReadable(q, show);
    var rule := TagRule(None, q.tag, text,
                        if q.transactionId.Some? then Some(AsI64(q.transactionId.value)) else None,
                        q.descriptionContains, q.transactionType, q.amountMin, q.amountMax, q.from, q.to);
    assert rule == RuleOf(q, show);
    if lookup.Err? {
      return Err(lookup.msg);
    }
    if lookup.value.Some? {
      return Ok(NotUnique(lookup.value.value));
    }
    var inserted := db.InsertOrGet(TagRules, TagRuleToRow(rule));
    if inserted.Err? {
      return Err(inserted.msg);
    }
    if inserted.value.Existing? {
      return Err(CannotInsert);
    }
    var m := TagRuleFromRow(inserted.value.row);
    if m.Err? {
      return Err(m.msg);
    }
    var id := m.value.id.value;
    var n := count(id);
    if n.Err? {
      return Err(n.msg);
    }
    r := Ok(Added(id, n.value));
  }

  /** An equal rule found by the lookup wins: its id is returned and
      nothing is stored. */
  lemma AddTagRuleExisting(s: State, q: RuleArgs, show: real -> string, id: int, count: int -> Result<nat>)
    requires ValidArgs(q)
    ensures AddTagRuleOutcome(s, q, show, Ok(Some(id)), count) == Outcome(s, Ok(NotUnique(id)))
  {
  }

  /** Otherwise a successful insert stores the described rule under a fresh
      id, which is returned with the match count for it; the rule reads
      back as itself under that id, and nothing else changes. */
  lemma AddTagRuleInserts(s: State, q: RuleArgs, show: real -> string, count: int -> Result<nat>)
    requires Valid(s) && ValidArgs(q)
    requires Insert(s, TagRules, TagRuleToRow(RuleOf(q, show))).result.Ok?
    ensures var image := TagRuleToRow(RuleOf(q, show));
      var r := InsertedRowid(s, TagRules, image);
      var o := AddTagRuleOutcome(s, q, show, Ok(None), count);
      var stored := image[0 := Integer(r)];
      && r !in Rowids(s.tables.tagRules)
      && Elems(o.state.tables.tagRules) == Elems(s.tables.tagRules) + {Entry(r, stored)}
      && o.state.tables.accounts == s.tables.accounts
      && o.state.tables.transactions == s.tables.transactions
      && TagRuleFromRow(stored) == Ok(RuleOf(q, show).(id := Some(r)))
      && (count(r).Ok? ==> o.result == Ok(Added(r, count(r).value)))
      && (count(r).Err? ==> o.result == Err(count(r).msg))
  {
    var rule := RuleOf(q, show);
    var image := TagRuleToRow(rule);
    var r := InsertedRowid(s, TagRules, image);
    var ins := Insert(s, TagRules, image);
    var stored := ins.result.value;
    assert stored == image[0 := Integer(r)] && r !in Rowids(s.tables.tagRules)
      && Elems(ins.state.tables.tagRules) == Elems(s.tables.tagRules) + {Entry(r, stored)}
      && ins.state.tables.accounts == s.tables.accounts
      && ins.state.tables.transactions == s.tables.transactions by {
      InsertEffect(s, TagRules, image);
      assert ins.state.tables.Get(Accounts) == s.tables.Get(Accounts);
      assert ins.state.tables.Get(Transactions) == s.tables.Get(Transactions);
    }
    assert TagRuleFromRow(stored) == Ok(rule.(id := Some(r))) by {
      TagRuleRoundTrip(rule);
      RuleWithId(image, r);
    }
    assert AddTagRuleOutcome(s, q, show, Ok(None), count) == AddedOutcome(ins.state, r, count);
  }

  function AddedOutcome(s: State, r: int, count: int -> Result<nat>): Outcome<AddTagRuleResult> {
    match count(r)
    case Err(e) => Outcome(s, Err(e))
    case Ok(n) => Outcome(s, Ok(Added(r, n)))
  }

  /** Giving a stored row its rowid gives the rule read from it that id. */
  lemma RuleWithId(row: Row, r: int)
    requires |row| == TagRuleArity && TagRuleFromRow(row).Ok?
    ensures TagRuleFromRow(row[0 := Integer(r)]) == Ok(TagRuleFromRow(row).value.(id := Some(r)))
  {
    var row2 := row[0 := Integer(r)];
    assert row2[1..] == row[1..];
  }

  // -----------------------------------------------------------------------
  // delete_tag_rule

  /** `delete_tag_rule`: a rule keyed by the parsed id, deleted by key. */
  function DeleteTagRuleOutcome(s: State, id: string): Outcome<nat> {
    match ParseI64(id)
    case None => Outcome(s, Err(NotANumber))
    case Some(n) => DeleteByKey(s, TagRules, Integer(n))
  }

  function KeyedRule(n: int): (r: TagRule)
    requires IsI64(n)
    ensures ValidTagRule(r)
  {
    TagRule(Some(n), "", "", None, None, None, None, None, None, None)
  }

  method DeleteTagRule(db: SqliteDatabase, id: string) returns (r: Result<nat>)
    modifies db
    ensures db.Snapshot() == DeleteTagRuleOutcome(old(db.Snapshot()), id).state
    ensures r == DeleteTagRuleOutcome(old(db.Snapshot()), id).result
  {
    var n := ParseI64(id);
    if n.None? {
      return Err(NotANumber);
    }
    r := db.Delete(TagRules, TagRuleToRow(KeyedRule(n.value)));
  }

  /** An id that does not parse is an error and deletes nothing; the id a
      listing prints deletes that rule, once: 1, then 0 on a repeat. */
  lemma DeleteListedRule(s: State, prefix: Option<string>, i: nat)
    requires Valid(s) && forall x | x in s.tables.tagRules :: IsI64(x.rowid)
    requires RuleShaped(SelectAll(s, TagRules)) && ListTagRules(s, prefix).Ok?
    requires i < |ListTagRules(s, prefix).value.rows|
    ensures var id := ListTagRules(s, prefix).value.rows[i][0];
      var o := DeleteTagRuleOutcome(s, id);
      && o.result == Ok(1)
      && DeleteTagRuleOutcome(o.state, id) == Outcome(o.state, Ok(0))
  {
    var x, n := ListedRuleEntry(s, prefix, i);
    ParseI64OfIntToString(n);
    DeleteTwice(s, TagRules, x);
  }

  /** The id a listing prints is the decimal key of a stored rule. */
  lemma ListedRuleEntry(s: State, prefix: Option<string>, i: nat) returns (x: Entry, n: int)
    requires Valid(s) && forall x | x in s.tables.tagRules :: IsI64(x.rowid)
    requires RuleShaped(SelectAll(s, TagRules)) && ListTagRules(s, prefix).Ok?
    requires i < |ListTagRules(s, prefix).value.rows|
    ensures x in s.tables.tagRules && x.image[0] == Integer(n) && I64Min <= n <= I64Max
    ensures ListTagRules(s, prefix).value.rows[i][0] == IntToString(n)
  {
    ListTagRulesMeaning(s, prefix);
    ValidRuleShaped(s);
    var rows := SelectAll(s, TagRules);
    var rules := TagRulesFrom(rows).value;
    var kept := Keep(rules, prefix);
    assert kept[i] in rules;
    var j :| 0 <= j < |rules| && rules[j] == kept[i];
    x := s.tables.tagRules[j];
    assert x in s.tables.tagRules;
    n := kept[i].id.value;
    assert x.image[0] == Integer(n);
  }

}
