/** Reading bank statements (src/commands/import.rs): the repair of
    Revolut's doubly-encoded text and the reading of one CSV record of an
    AIB or a Revolut statement into a transaction. CSV decoding itself is
    not modelled: a record is a sequence of fields, read against the
    header's names. */
module Statements {
  import opened Wrappers
  import opened Numerals
  import Dates
  import opened Values
  import opened Strings
  import Utf8

  // -----------------------------------------------------------------------
  // fix_revolut_encoding

  /** A character the repair can turn back into a byte: U+0001 to U+00FF. */
  predicate Latin1(c: char) {
    0 < c as int <= 0xFF
  }

  predicate AllLatin1(s: string) {
    forall i :: 0 <= i < |s| ==> Latin1(s[i])
  }

  /** Each character taken as the byte with its code point. */
  function Latin1Bytes(s: string): (bs: seq<Utf8.byte>)
    requires AllLatin1(s)
    ensures |bs| == |s| && forall i :: 0 <= i < |s| ==> bs[i] as int == s[i] as int
  {
    seq(|s|, i requires 0 <= i < |s| => s[i] as int as Utf8.byte)
  }

  /** What `fix_revolut_encoding` returns: the input when a character is
      NUL or above U+00FF, or when its bytes are not UTF-8; otherwise the
      text those bytes encode. */
  function Repaired(s: string): (r: string)
    ensures !AllLatin1(s) ==> r == s
    ensures AllLatin1(s) && Utf8.Decode(Latin1Bytes(s)).None? ==> r == s
    ensures AllLatin1(s) && Utf8.Decode(Latin1Bytes(s)).Some? ==> r == Utf8.Decode(Latin1Bytes(s)).value
  {
    if !AllLatin1(s) then s
    else
      match Utf8.Decode(Latin1Bytes(s))
      case None => s
      case Some(t) => t
  }

  /** The loop of `fix_revolut_encoding`: one byte per character, giving up
      on the first character outside U+0001..U+00FF. */
  method FixRevolutEncoding(s: string) returns (r: string)
    ensures r == Repaired(s)
  {
    var bytes: seq<Utf8.byte> := [];
    var i := 0;
    while i < |s|
      invariant 0 <= i <= |s|
      invariant AllLatin1(s[..i])
      invariant bytes == Latin1Bytes(s[..i])
    {
      if !(0 < s[i] as int <= 0xFF) {
        assert !Latin1(s[i]);
        return s;
      }
      assert s[..i + 1] == s[..i] + [s[i]];
      bytes := bytes + [s[i] as int as Utf8.byte];
      i := i + 1;
    }
    assert s[..i] == s;
    var decoded := Utf8.Decode(bytes);
    r := if decoded.Some? then decoded.value else s;
  }

  /** Text that is UTF-8 read back one byte per character, as Revolut's
      statements are. */
  function Mojibake(t: string): (m: string)
    ensures |m| == |Utf8.Encode(t)|
  {
    var bs := Utf8.Encode(t);
    seq(|bs|, i requires 0 <= i < |bs| => bs[i] as int as char)
  }

  lemma {:induction false} EncodeHasNoZero(t: string)
    requires forall i :: 0 <= i < |t| ==> t[i] != '\0'
    ensures 0 !in Utf8.Encode(t)
    decreases |t|
  {
    if |t| > 0 {
      EncodeHasNoZero(t[1..]);
      var c := Utf8.EncodeChar(t[0]);
      assert 0 !in c by {
        if t[0] as int < 0x80 {
          assert c == [t[0] as int as Utf8.byte];
        }
      }
    }
  }

  /** The repair undoes the double encoding of any text without NUL. */
  lemma RepairsMojibake(t: string)
    requires forall i :: 0 <= i < |t| ==> t[i] != '\0'
    ensures Repaired(Mojibake(t)) == t
  {
    var bs := Utf8.Encode(t);
    var m := Mojibake(t);
    EncodeHasNoZero(t);
    assert AllLatin1(m) by {
      forall i | 0 <= i < |m| ensures Latin1(m[i]) {
        assert bs[i] in bs;
      }
    }
    assert Latin1Bytes(m) == bs;
    Utf8.DecodeEncode(t);
  }

  /** ASCII text without NUL is left as it is. */
  lemma AsciiFixedPoint(s: string)
    requires forall i :: 0 <= i < |s| ==> 0 < s[i] as int < 0x80
    ensures Repaired(s) == s
  {
    var bs := Latin1Bytes(s);
    Utf8.DecodeAscii(bs);
    var d := Utf8.Decode(bs).value;
    assert d == s by {
      forall i | 0 <= i < |s| ensures d[i] == s[i] {
        assert d[i] as int == s[i] as int;
      }
    }
  }

  // -----------------------------------------------------------------------
  // Records

  /** A record as a map from (trimmed) header to field. Zipping stops at the
      shorter of the two; a repeated header keeps its last field. */
  function AsKv(header: seq<string>, record: seq<string>): (kv: map<string, string>)
    ensures forall k :: k in kv <==> exists i :: 0 <= i < |header| && i < |record| && header[i] == k
  {
    if |header| == 0 || |record| == 0 then map[]
    else map[header[0] := record[0]] + AsKv(header[1..], record[1..])
  }

  /** A header's field is the record's field at its last position. */
  lemma {:induction false} AsKvLookup(header: seq<string>, record: seq<string>, i: nat)
    requires i < |header| && i < |record| && header[i] !in header[i + 1..]
    ensures header[i] in AsKv(header, record) && AsKv(header, record)[header[i]] == record[i]
  {
    var rest := AsKv(header[1..], record[1..]);
    if i == 0 {
      assert header[0] !in rest by {
        forall j | 0 <= j < |header[1..]| && j < |record[1..]| ensures header[1..][j] != header[0] {
          assert header[1..][j] in header[1..];
        }
      }
    } else {
      assert header[1..][i - 1] == header[i] && header[1..][i..] == header[i + 1..];
      AsKvLookup(header[1..], record[1..], i - 1);
    }
  }

  /** A name missing from the header is missing from the record. */
  lemma AsKvMissing(header: seq<string>, record: seq<string>, k: string)
    requires k !in header
    ensures k !in AsKv(header, record)
  {
    forall i | 0 <= i < |header| ensures header[i] != k {
      assert header[i] in header;
    }
  }

  // -----------------------------------------------------------------------
  // AIB

  const LocalCurrency: string := "Local Currency"

  /** The description fields, in the order they are joined. */
  const DescriptionFields: seq<string> := ["Description", "Description1", "Description2", "Description3"]

  /** Whether field `f` is present and holds more than whitespace. */
  predicate HasText(kv: map<string, string>, f: string) {
    f in kv && Trim(kv[f]) != ""
  }

  /** The trimmed values of the given fields that have text. */
  function DescriptionParts(kv: map<string, string>, fields: seq<string>): seq<string> {
    if |fields| == 0 then []
    else if HasText(kv, fields[0]) then [Trim(kv[fields[0]])] + DescriptionParts(kv, fields[1..])
    else DescriptionParts(kv, fields[1..])
  }

  /** The AIB description: those parts joined by " / ". */
  function AibDescription(kv: map<string, string>): string {
    Join(DescriptionParts(kv, DescriptionFields), " / ")
  }

  /** Fields without text contribute nothing. */
  lemma {:induction false} NoPartsWithoutText(kv: map<string, string>, fields: seq<string>)
    requires forall j :: 0 <= j < |fields| ==> !HasText(kv, fields[j])
    ensures DescriptionParts(kv, fields) == []
  {
    if |fields| > 0 {
      assert forall j :: 0 <= j < |fields| - 1 ==> fields[1..][j] == fields[j + 1];
      NoPartsWithoutText(kv, fields[1..]);
    }
  }

  /** Exactly one field with text contributes exactly its trimmed value. */
  lemma {:induction false} OnePartWithText(kv: map<string, string>, fields: seq<string>, k: nat)
    requires k < |fields| && HasText(kv, fields[k])
    requires forall j :: 0 <= j < |fields| && j != k ==> !HasText(kv, fields[j])
    ensures DescriptionParts(kv, fields) == [Trim(kv[fields[k]])]
  {
    var tail := fields[1..];
    if k == 0 {
      forall j | 0 <= j < |tail| ensures !HasText(kv, tail[j]) {
        assert tail[j] == fields[j + 1];
      }
      NoPartsWithoutText(kv, tail);
    } else {
      assert !HasText(kv, fields[0]);
      forall j | 0 <= j < |tail| && j != k - 1 ensures !HasText(kv, tail[j]) {
        assert tail[j] == fields[j + 1];
      }
      assert tail[k - 1] == fields[k];
      OnePartWithText(kv, tail, k - 1);
    }
  }

  /** Without any description the AIB description is empty; with one
      description field it is that field, trimmed. */
  lemma AibDescriptionCases(kv: map<string, string>, k: nat)
    requires k < |DescriptionFields|
    requires forall j :: 0 <= j < |DescriptionFields| && j != k ==> !HasText(kv, DescriptionFields[j])
    ensures !HasText(kv, DescriptionFields[k]) ==> AibDescription(kv) == ""
    ensures HasText(kv, DescriptionFields[k]) ==> AibDescription(kv) == Trim(kv[DescriptionFields[k]])
  {
    if HasText(kv, DescriptionFields[k]) {
      OnePartWithText(kv, DescriptionFields, k);
    } else {
      NoPartsWithoutText(kv, DescriptionFields);
    }
  }

  /** Four fields with text give four parts, in field order. */
  lemma FourParts(kv: map<string, string>, a: string, b: string, c: string, d: string)
    requires HasText(kv, a) && HasText(kv, b) && HasText(kv, c) && HasText(kv, d)
    ensures DescriptionParts(kv, [a, b, c, d]) == [Trim(kv[a]), Trim(kv[b]), Trim(kv[c]), Trim(kv[d])]
  {
    ThreeParts(kv, b, c, d);
    assert [a, b, c, d][1..] == [b, c, d];
  }

  lemma ThreeParts(kv: map<string, string>, b: string, c: string, d: string)
    requires HasText(kv, b) && HasText(kv, c) && HasText(kv, d)
    ensures DescriptionParts(kv, [b, c, d]) == [Trim(kv[b]), Trim(kv[c]), Trim(kv[d])]
  {
    TwoParts(kv, c, d);
    assert [b, c, d][1..] == [c, d];
  }

  lemma TwoParts(kv: map<string, string>, c: string, d: string)
    requires HasText(kv, c) && HasText(kv, d)
    ensures DescriptionParts(kv, [c, d]) == [Trim(kv[c]), Trim(kv[d])]
  {
    OnePart(kv, d);
    assert [c, d][1..] == [d];
  }

  lemma OnePart(kv: map<string, string>, d: string)
    requires HasText(kv, d)
    ensures DescriptionParts(kv, [d]) == [Trim(kv[d])]
  {
    assert [d][1..] == [];
  }

  /** With all four fields it is the four, trimmed, joined by " / ". */
  lemma AibDescriptionAll(kv: map<string, string>)
    requires HasText(kv, "Description") && HasText(kv, "Description1")
    requires HasText(kv, "Description2") && HasText(kv, "Description3")
    ensures AibDescription(kv) == Trim(kv["Description"]) + " / " + (Trim(kv["Description1"]) + " / "
      + (Trim(kv["Description2"]) + " / " + Trim(kv["Description3"])))
  {
    FourParts(kv, "Description", "Description1", "Description2", "Description3");
    JoinFour(Trim(kv["Description"]), Trim(kv["Description1"]), Trim(kv["Description2"]), Trim(kv["Description3"]), " / ");
  }

  lemma JoinFour(d0: string, d1: string, d2: string, d3: string, sep: string)
    ensures Join([d0, d1, d2, d3], sep) == d0 + sep + (d1 + sep + (d2 + sep + d3))
  {
    assert Join([d2, d3], sep) == d2 + sep + d3 by {
      assert [d2, d3][1..] == [d3];
    }
    assert Join([d1, d2, d3], sep) == d1 + sep + (d2 + sep + d3) by {
      assert [d1, d2, d3][1..] == [d2, d3];
    }
    assert [d0, d1, d2, d3][1..] == [d1, d2, d3];
  }

  /** The AIB transaction types. */
  function AibType(tt: string): (r: Option<TransactionType>)
    ensures r == Some(Debit) <==> tt in {"Topup", "ATM", "Debit"}
    ensures r == Some(DirectDebit) <==> tt == "Direct Debit"
    ensures r == Some(Credit) <==> tt == "Credit"
  {
    match tt
    case "Topup" => Some(Debit)
    case "ATM" => Some(Debit)
    case "Debit" => Some(Debit)
    case "Direct Debit" => Some(DirectDebit)
    case "Credit" => Some(Credit)
    case _ => None
  }

  /** An AIB amount: blank is zero, otherwise the first comma is removed
      before parsing. `parse` is Rust's `str::parse::<f64>`. */
  function AibAmount(a: string, parse: string -> Option<real>): Option<real> {
    if a == "" then Some(0.0) else parse(RemoveFirst(a, ','))
  }

  /** One AIB record. An error is the text the loop reports after
      `path:line`. */
  function AibRecord(kv: map<string, string>, parse: string -> Option<real>): (r: Result<Transaction>)
    ensures r.Ok? ==> ValidTransaction(r.value) && r.value.id.None?
    ensures r.Ok? ==> r.value.description == AibDescription(kv)
    ensures r.Ok? ==> "Transaction Type" in kv && AibType(kv["Transaction Type"]) == Some(r.value.transactionType)
  {
    if "Posted Account" !in kv then Err("has no 'Posted Account' field")
    else if "Posted Transactions Date" !in kv then Err("has no 'Posted Transactions Date' field!")
    else
      match Dates.ParseDayFirst(kv["Posted Transactions Date"], '/')
      case None => Err("failed to parse transaction date (expected DD/MM/YYYY)")
      case Some(date) =>
        if "Debit Amount" !in kv then Err("has no 'Debit Amount' field!")
        else
          match AibAmount(kv["Debit Amount"], parse)
          case None => Err("failed to parse debit amount")
          case Some(debit) =>
            if "Credit Amount" !in kv then Err("has no 'Credit Amount' field!")
            else
              match AibAmount(kv["Credit Amount"], parse)
              case None => Err("failed to parse credit amount")
              case Some(credit) =>
                if "Balance" !in kv then Err("has no 'Balance' field!")
                else
                  match parse(RemoveFirst(kv["Balance"], ','))
                  case None => Err("failed to parse balance")
                  case Some(balance) =>
                    if "Transaction Type" !in kv then Err("has no 'Transaction Type' field!")
                    else
                      match AibType(kv["Transaction Type"])
                      case None => Err("has unknown 'Transaction Type': " + kv["Transaction Type"])
                      case Some(tt) =>
                        if "Posted Currency" !in kv then Err("has no 'Currency' field")
                        else Ok(Transaction(None, kv["Posted Account"], date, AibDescription(kv),
                                            debit, credit, balance, tt, kv["Posted Currency"]))
  }

  // -----------------------------------------------------------------------
  // Revolut

  /** What a record contributes: a transaction, nothing, or an error (the
      text reported after `path:line`). A record with an empty balance is
      passed over by a different `continue` from the other passed-over
      records (the one without `line += 1`). */
  datatype RowStep = Take(t: Transaction) | Skip | SkipSameLine | Fail(msg: string)

  /** A Revolut amount or fee: blank is zero. */
  function RevolutNumber(a: string, parse: string -> Option<real>): Option<real> {
    if a == "" then Some(0.0) else parse(a)
  }

  /** The date part of "Completed Date": up to the first space. */
  function DatePart(ptd: string): string {
    match SplitOnce(ptd, ' ')
    case None => ptd
    case Some(parts) => parts.0
  }

  /** The transaction of a Revolut record once its numbers are read: the
      sign of the amount decides the type, and the fee is taken from the
      credit or added to the debit. */
  function RevolutTransaction(account: string, date: Dates.Date, description: string, amount: real, fee: real,
                              balance: real, currency: string): (t: Transaction)
    ensures t.transactionType == Credit <==> amount >= 0.0
    ensures t.transactionType == Debit <==> amount < 0.0
    ensures t.creditAmount - t.debitAmount == amount - fee
    ensures t.transactionType == Credit ==> t.debitAmount == 0.0
    ensures t.transactionType == Debit ==> t.creditAmount == 0.0
    ensures t.id.None? && t.accountName == account && t.postedDate == date && t.description == description
    ensures t.balance == balance && t.currency == currency
  {
    if amount >= 0.0 then Transaction(None, account, date, description, 0.0, amount - fee, balance, Credit, currency)
    else Transaction(None, account, date, description, -amount + fee, 0.0, balance, Debit, currency)
  }

  /** The numeric fields of a Revolut record, read in the order the source
      reads them, and its currency. */
  function RevolutMoney(kv: map<string, string>, account: string, date: Dates.Date,
                        description: string, parse: string -> Option<real>): (r: RowStep)
    ensures r.Take? ==> "Amount" in kv && "Fee" in kv && "Balance" in kv && "Currency" in kv
    ensures r.Take? ==>
      && RevolutNumber(kv["Amount"], parse).Some? && RevolutNumber(kv["Fee"], parse).Some?
      && RevolutNumber(kv["Fee"], parse).value >= 0.0 && parse(kv["Balance"]).Some?
    ensures r.Take? ==> r.t == RevolutTransaction(account, date, description, RevolutNumber(kv["Amount"], parse).value,
      RevolutNumber(kv["Fee"], parse).value, parse(kv["Balance"]).value, kv["Currency"])
    ensures r.SkipSameLine? <==>
      && "Amount" in kv && RevolutNumber(kv["Amount"], parse).Some?
      && "Fee" in kv && RevolutNumber(kv["Fee"], parse).Some? && RevolutNumber(kv["Fee"], parse).value >= 0.0
      && "Balance" in kv && kv["Balance"] == ""
    ensures !r.Skip?
  {
    if "Amount" !in kv then Fail("has no 'Amount' field!")
    else
      match RevolutNumber(kv["Amount"], parse)
      case None => Fail("failed to parse 'Amount'")
      case Some(amount) =>
        if "Fee" !in kv then Fail("has no 'Fee' field!")
        else
          match RevolutNumber(kv["Fee"], parse)
          case None => Fail("failed to parse 'Fee'")
          case Some(fee) =>
            if fee < 0.0 then Fail("has negative 'Fee' field!")
            else if "Balance" !in kv then Fail("has no 'Balance' field!")
            else if kv["Balance"] == "" then SkipSameLine
            else
              match parse(kv["Balance"])
              case None => Fail("failed to parse 'Balance'")
              case Some(balance) =>
                if "Currency" !in kv then Fail("has no 'Currency' field")
                else Take(RevolutTransaction(account, date, description, amount, fee, balance, kv["Currency"]))
  }

  /** One Revolut record, for the statement of `account` and the product
      asked for; an error is the text reported after `path:line`. Reverted and pending records, and records of another
      product, are passed over whatever else they hold. */
  function RevolutRecord(kv: map<string, string>, account: string, product: string,
                         parse: string -> Option<real>): (r: RowStep)
    ensures "State" in kv && kv["State"] in {"REVERTED", "PENDING"} ==> r == Skip
    ensures "Product" in kv && kv["Product"] != product ==> r == Skip
    ensures r.Take? ==> "Product" in kv && kv["Product"] == product && !("State" in kv && kv["State"] in {"REVERTED", "PENDING"})
    ensures r.Take? ==> ValidTransaction(r.t) && r.t.id.None? && r.t.accountName == account
  {
    if "State" in kv && kv["State"] in {"REVERTED", "PENDING"} then Skip
    else if "Product" !in kv then Fail("has no 'Product' field")
    else if kv["Product"] != product then Skip
    else if "Completed Date" !in kv then Fail("has no 'Completed Date' field!")
    else
      match Dates.Parse(DatePart(kv["Completed Date"]), '-')
      case None => Fail("failed to parse 'Completed Date' (expected YYYY-MM-DD)")
      case Some(date) =>
        RevolutMoney(kv, account, date, Repaired(if "Description" in kv then kv["Description"] else ""), parse)
  }

  const RevolutHeader: seq<string> := ["Product", "Completed Date", "Amount", "Fee", "Balance"]

  /** A completed record of the product asked for, whose balance is empty. */
  const EmptyBalanceRecord: seq<string> := ["Current", "2023-01-02", "", "", ""]

  lemma RevolutHeaderNames()
    ensures var h := RevolutHeader;
      && h[0] == "Product" && h[0] !in h[1..]
      && h[1] == "Completed Date" && h[1] !in h[2..]
      && h[2] == "Amount" && h[2] !in h[3..]
      && h[3] == "Fee" && h[3] !in h[4..]
      && h[4] == "Balance" && h[4] !in h[5..]
      && "State" !in h && "Description" !in h
  {
    var h := RevolutHeader;
    assert h[1..] == ["Completed Date", "Amount", "Fee", "Balance"];
    assert h[2..] == ["Amount", "Fee", "Balance"];
    assert h[3..] == ["Fee", "Balance"];
    assert h[4..] == ["Balance"];
    assert h[5..] == [];
  }

  lemma EmptyBalanceKv()
    ensures var kv := AsKv(RevolutHeader, EmptyBalanceRecord);
      && "State" !in kv && "Description" !in kv
      && "Product" in kv && kv["Product"] == "Current"
      && "Completed Date" in kv && kv["Completed Date"] == "2023-01-02"
      && "Amount" in kv && kv["Amount"] == ""
      && "Fee" in kv && kv["Fee"] == ""
      && "Balance" in kv && kv["Balance"] == ""
  {
    var h, r := RevolutHeader, EmptyBalanceRecord;
    RevolutHeaderNames();
    AsKvLookup(h, r, 0);
    AsKvLookup(h, r, 1);
    AsKvLookup(h, r, 2);
    AsKvLookup(h, r, 3);
    AsKvLookup(h, r, 4);
    AsKvMissing(h, r, "State");
    AsKvMissing(h, r, "Description");
  }

  lemma YearDigits()
    ensures AllDigits("2023") && DigitsValue("2023") == 2023
  {
    var s := "2023";
    assert s[..3] == "202" && s[..3][..2] == "20" && s[..3][..2][..1] == "2";
    assert DigitsValue("2") == 2;
    assert DigitsValue("20") == 20;
    assert DigitsValue("202") == 202;
  }

  lemma ScanCompletedYear()
    ensures Dates.ScanYear("2023-01-02") == Some((2023, "-01-02"))
  {
    var s := "2023-01-02";
    assert ScanNumber(s, 1, 4) == Some((2023, "-01-02")) by {
      assert s == "2023" + "-01-02";
      YearDigits();
      ScanNumberOfDigits("2023", "-01-02", 1, 4);
    }
    assert |s| > 0 && s[0] != '-' && s[0] != '+';
  }

  lemma ScanCompletedMonth()
    ensures ScanNumber("01-02", 1, 2) == Some((1, "-02"))
  {
    assert "01-02" == "01" + "-02";
    assert DigitsValue("01") == 1 by {
      assert "01"[..1] == "0";
    }
    ScanNumberOfDigits("01", "-02", 1, 2);
  }

  lemma ScanCompletedDay()
    ensures ScanNumber("02", 1, 2) == Some((2, []))
  {
    assert "02" == "02" + [];
    assert DigitsValue("02") == 2 by {
      assert "02"[..1] == "0";
    }
    ScanNumberOfDigits("02", [], 1, 2);
  }

  lemma CompletedDateParses()
    ensures Dates.Parse(DatePart("2023-01-02"), '-') == Some(Dates.Date(2023, 1, 2))
  {
    var s := "2023-01-02";
    assert DatePart(s) == s by {
      assert ' ' !in s;
    }
    ScanCompletedYear();
    ScanCompletedMonth();
    ScanCompletedDay();
    Dates.ParseFields(s, '-', 2023, 1, 2, "-01-02", "-02");
  }

  lemma EmptyBalanceRecordPassedOver(parse: string -> Option<real>)
    ensures RevolutRecord(AsKv(RevolutHeader, EmptyBalanceRecord), "a", "Current", parse) == SkipSameLine
  {
    EmptyBalanceKv();
    CompletedDateParses();
  }

  /** A record with no fields at all fails on its missing product. */
  lemma EmptyRecordFails(account: string, product: string, parse: string -> Option<real>)
    ensures RevolutRecord(AsKv(RevolutHeader, []), account, product, parse) == Fail("has no 'Product' field")
  {
    var kv := AsKv(RevolutHeader, []);
    assert "State" !in kv && "Product" !in kv;
  }
}
