/** The row-to-journal-entry pipeline: for every row of a bank's CSV export,
    in file order, decide whether an exclusion rule drops it, read its date,
    payee, amount and currency, classify it to a second account, and write the
    resulting ledger entry.

    A Rust panic (a column past the end of a row, an empty amount, a date that
    does not parse) ends the whole run; it is modelled as a `Panic` result, and
    the run keeps the lines it had already written before it. */
module Bank2Ledger {
  import opened Wrappers
  import opened Text
  import opened Dates
  import Ledger

  /** One row of the CSV file: its fields, in column order. */
  type Row = seq<string>

  /** An exclusion rule: the field at `column` is tested against `value`,
      by substring (`"contains"`) or by equality (`"equal"`). */
  datatype ExcludeCondition = ExcludeCondition(column: nat, operation: string, value: string)

  /** A classification rule: a pattern (`key`) and the account it selects (`value`). */
  datatype Mapping = Mapping(key: string, value: string)

  /** The classification tables, one for expenses and one for income. */
  datatype PayeeToSecondAccount = PayeeToSecondAccount(expense: seq<Mapping>, income: seq<Mapping>)

  datatype Meta = Meta(address: nat)

  /** Which column holds which part of a ledger entry. */
  datatype LedgerRecordToRow = LedgerRecordToRow(
    date: nat,
    payee: nat,
    secondAccountHint: nat,
    firstAmount: nat,
    firstAmountCurrency: nat,
    meta: Meta)

  /** The configuration of one bank's export format, read once and never changed. */
  datatype Settings = Settings(
    defaultFirstAccount: string,
    defaultSecondAccount: string,
    ledgerRecordToRow: LedgerRecordToRow,
    excludeConditions: seq<ExcludeCondition>,
    payeeToSecondAccount: PayeeToSecondAccount)

  /** Why a run panicked. The source's panics carry no such detail (an index
      past the row's end and an empty amount both end in an `unwrap` of
      `None`); the fault records which panic it was. */
  datatype Fault =
    | ColumnOutOfRange(column: nat, width: nat)  // `record[column]` on a row of `width` fields
    | EmptyAmount                                 // `amount.chars().nth(0).unwrap()` on ""
    | DateParseError(text: string)                // `parse_from_str(..).unwrap()`

  datatype Result<T> = Ok(value: T) | Panic(fault: Fault)

  /** `record[column]`. */
  function Field(row: Row, column: nat): (r: Result<string>)
    ensures r.Ok? <==> column < |row|
    ensures r.Ok? ==> r.value == row[column]
    ensures r.Panic? ==> r.fault == ColumnOutOfRange(column, |row|)
  {
    if column < |row| then Ok(row[column]) else Panic(ColumnOutOfRange(column, |row|))
  }

  // ---------------------------------------------------------------------------
  // Field extraction

  /** `get_date`: the trimmed date field read as `%d/%m/%Y`. */
  function GetDate(settings: Settings, row: Row): (r: Result<CalendarDate>)
    ensures var c := settings.ledgerRecordToRow.date;
      r.Ok? <==> c < |row| && ParseDayMonthYear(Trim(row[c])).Some?
    ensures r.Ok? ==> ParseDayMonthYear(Trim(row[settings.ledgerRecordToRow.date])) == Some(r.value)
  {
    match Field(row, settings.ledgerRecordToRow.date)
    case Panic(f) => Panic(f)
    case Ok(text) =>
      match ParseDayMonthYear(Trim(text))
      case Some(d) => Ok(d)
      case None => Panic(DateParseError(Trim(text)))
  }

  /** `get_payee`: the payee field without its surrounding whitespace. */
  function GetPayee(settings: Settings, row: Row): (r: Result<string>)
    ensures var c := settings.ledgerRecordToRow.payee;
      (r.Ok? <==> c < |row|) && (r.Ok? ==> IsTrimmed(row[c], r.value))
  {
    match Field(row, settings.ledgerRecordToRow.payee)
    case Panic(f) => Panic(f)
    case Ok(text) => Ok(Trim(text))
  }

  /** `get_first_amount`: the amount field, unchanged. */
  function GetFirstAmount(settings: Settings, row: Row): (r: Result<string>)
    ensures var c := settings.ledgerRecordToRow.firstAmount;
      (r.Ok? <==> c < |row|) && (r.Ok? ==> r.value == row[c])
  {
    Field(row, settings.ledgerRecordToRow.firstAmount)
  }

  /** `get_first_amount_currency`: the currency field, unchanged. */
  function GetFirstAmountCurrency(settings: Settings, row: Row): (r: Result<string>)
    ensures var c := settings.ledgerRecordToRow.firstAmountCurrency;
      (r.Ok? <==> c < |row|) && (r.Ok? ==> r.value == row[c])
  {
    Field(row, settings.ledgerRecordToRow.firstAmountCurrency)
  }

  // ---------------------------------------------------------------------------
  // Exclusion filter

  /** What one condition's operation says about a field; any operation other
      than `"contains"` and `"equal"` says nothing. */
  predicate Holds(c: ExcludeCondition, field: string) {
    (c.operation == "contains" && Contains(field, c.value)) ||
    (c.operation == "equal" && field == c.value)
  }

  /** The condition reaches a field of the row and holds of it. */
  predicate Excludes(c: ExcludeCondition, row: Row) {
    c.column < |row| && Holds(c, row[c.column])
  }

  /** The conditions scanned in order, as `should_exclude` does: every
      condition reads its column (the first one past the row's end panics),
      and the answer is whether any of them held. */
  function CheckConditions(conditions: seq<ExcludeCondition>, row: Row): Result<bool>
    decreases |conditions|
  {
    if conditions == [] then Ok(false)
    else
      var c := conditions[|conditions| - 1];
      match CheckConditions(conditions[..|conditions| - 1], row)
      case Panic(f) => Panic(f)
      case Ok(excluded) =>
        if c.column < |row| then Ok(excluded || Holds(c, row[c.column]))
        else Panic(ColumnOutOfRange(c.column, |row|))
  }

  /** Condition `k` is the first one whose column lies past the row's end. */
  predicate FirstOutOfRange(conditions: seq<ExcludeCondition>, row: Row, k: int) {
    0 <= k < |conditions| && conditions[k].column >= |row| &&
    forall j :: 0 <= j < k ==> conditions[j].column < |row|
  }

  /** A panic in the first `n` conditions is the panic of the whole scan. */
  lemma {:induction false} CheckConditionsPanicStays(conditions: seq<ExcludeCondition>, row: Row, n: nat)
    requires n <= |conditions| && CheckConditions(conditions[..n], row).Panic?
    ensures CheckConditions(conditions, row) == CheckConditions(conditions[..n], row)
    decreases |conditions| - n
  {
    if n < |conditions| {
      var m := |conditions| - 1;
      assert conditions[..m][..n] == conditions[..n];
      CheckConditionsPanicStays(conditions[..m], row, n);
    } else {
      assert conditions[..n] == conditions;
    }
  }

  /** What `should_exclude` decides: it panics exactly when some condition's
      column lies past the row's end, with the first such condition; otherwise
      the row is excluded exactly when some condition holds of it. */
  lemma {:induction false} CheckConditionsMeaning(conditions: seq<ExcludeCondition>, row: Row)
    ensures var r := CheckConditions(conditions, row);
      (r.Ok? <==> forall i :: 0 <= i < |conditions| ==> conditions[i].column < |row|) &&
      (r.Ok? ==> (r.value <==> exists i :: 0 <= i < |conditions| && Excludes(conditions[i], row))) &&
      (r.Panic? ==> exists k :: FirstOutOfRange(conditions, row, k) &&
                      r.fault == ColumnOutOfRange(conditions[k].column, |row|))
    decreases |conditions|
  {
    if conditions != [] {
      var m := |conditions| - 1;
      var init := conditions[..m];
      CheckConditionsMeaning(init, row);
      assert forall i :: 0 <= i < m ==> init[i] == conditions[i];
      var r := CheckConditions(conditions, row);
      if CheckConditions(init, row).Panic? {
        var k :| FirstOutOfRange(init, row, k) &&
                 CheckConditions(init, row).fault == ColumnOutOfRange(init[k].column, |row|);
        assert FirstOutOfRange(conditions, row, k);
      } else if conditions[m].column >= |row| {
        assert FirstOutOfRange(conditions, row, m);
      } else if r.value {
        if !CheckConditions(init, row).value {
          assert Excludes(conditions[m], row);
        } else {
          var i :| 0 <= i < m && Excludes(init[i], row);
          assert Excludes(conditions[i], row);
        }
      } else {
        forall i | 0 <= i < |conditions| ensures !Excludes(conditions[i], row) {
          if i < m {
            assert !Excludes(init[i], row);
          }
        }
      }
    }
  }

  /** `should_exclude`: a flag set by any condition that holds and never reset. */
  method ShouldExclude(conditions: seq<ExcludeCondition>, row: Row) returns (r: Result<bool>)
    ensures r == CheckConditions(conditions, row)
  {
    var excluded := false;
    for i := 0 to |conditions|
      invariant CheckConditions(conditions[..i], row) == Ok(excluded)
    {
      var c := conditions[i];
      assert conditions[..i + 1][..i] == conditions[..i];
      if c.column >= |row| {
        r := Panic(ColumnOutOfRange(c.column, |row|));
        CheckConditionsPanicStays(conditions, row, i + 1);
        return;
      }
      var field := row[c.column];
      if c.operation == "contains" {
        if Contains(field, c.value) {
          excluded := true;
        }
      } else if c.operation == "equal" {
        if field == c.value {
          excluded := true;
        }
      }
    }
    assert conditions[..|conditions|] == conditions;
    r := Ok(excluded);
  }

  /** A permutation keeps every condition, so whatever one condition of the
      first list does to a row, one of the second does too. */
  lemma PermutationKeepsConditions(a: seq<ExcludeCondition>, b: seq<ExcludeCondition>, row: Row)
    requires multiset(a) == multiset(b)
    ensures (exists i :: 0 <= i < |a| && a[i].column >= |row|) ==>
            (exists j :: 0 <= j < |b| && b[j].column >= |row|)
    ensures (exists i :: 0 <= i < |a| && Excludes(a[i], row)) ==>
            (exists j :: 0 <= j < |b| && Excludes(b[j], row))
  {
    if exists i :: 0 <= i < |a| && a[i].column >= |row| {
      var i :| 0 <= i < |a| && a[i].column >= |row|;
      assert a[i] in multiset(b);
      var j :| 0 <= j < |b| && b[j] == a[i];
    }
    if exists i :: 0 <= i < |a| && Excludes(a[i], row) {
      var i :| 0 <= i < |a| && Excludes(a[i], row);
      assert a[i] in multiset(b);
      var j :| 0 <= j < |b| && b[j] == a[i];
    }
  }

  /** Order does not matter: conditions that are a permutation of each other
      panic alike and exclude the same rows. */
  lemma ExclusionOrderIrrelevant(c1: seq<ExcludeCondition>, c2: seq<ExcludeCondition>, row: Row)
    requires multiset(c1) == multiset(c2)
    ensures CheckConditions(c1, row).Ok? == CheckConditions(c2, row).Ok?
    ensures CheckConditions(c1, row).Ok? ==> CheckConditions(c1, row) == CheckConditions(c2, row)
  {
    CheckConditionsMeaning(c1, row);
    CheckConditionsMeaning(c2, row);
    PermutationKeepsConditions(c1, c2, row);
    PermutationKeepsConditions(c2, c1, row);
  }

  /** The conditions whose operation is `"contains"` or `"equal"`, in order. */
  function KnownConditions(conditions: seq<ExcludeCondition>): seq<ExcludeCondition>
    decreases |conditions|
  {
    if conditions == [] then []
    else
      var c := conditions[|conditions| - 1];
      KnownConditions(conditions[..|conditions| - 1]) +
      (if c.operation == "contains" || c.operation == "equal" then [c] else [])
  }

  /** A condition with any other operation never excludes a row: on rows wide
      enough for every condition, dropping those conditions changes nothing. */
  lemma {:induction false} UnknownOperationsIgnored(conditions: seq<ExcludeCondition>, row: Row)
    requires forall i :: 0 <= i < |conditions| ==> conditions[i].column < |row|
    ensures CheckConditions(conditions, row) == CheckConditions(KnownConditions(conditions), row)
    decreases |conditions|
  {
    if conditions != [] {
      var m := |conditions| - 1;
      var c := conditions[m];
      var init := conditions[..m];
      assert forall i :: 0 <= i < m ==> init[i] == conditions[i];
      UnknownOperationsIgnored(init, row);
      var b := CheckConditions(init, row);
      assert b.Ok? by { CheckConditionsMeaning(init, row); }
      if c.operation == "contains" || c.operation == "equal" {
        var k := KnownConditions(init) + [c];
        assert k[..|k| - 1] == KnownConditions(init);
      } else {
        assert KnownConditions(conditions) == KnownConditions(init);
        assert !Holds(c, row[c.column]);
      }
    }
  }

  /** A row whose field contains the value of one of its `"contains"`
      conditions is excluded, unless a column of the conditions lies past the
      row's end. */
  lemma ContainsConditionExcludes(conditions: seq<ExcludeCondition>, row: Row, i: nat)
    requires forall j :: 0 <= j < |conditions| ==> conditions[j].column < |row|
    requires i < |conditions| && conditions[i].operation == "contains"
    requires HasSubstring(row[conditions[i].column], conditions[i].value)
    ensures CheckConditions(conditions, row) == Ok(true)
  {
    CheckConditionsMeaning(conditions, row);
    assert Excludes(conditions[i], row);
  }

  /** The flag is only ever set: more conditions never take back an exclusion
      (as long as their columns are there). */
  lemma ExclusionOnlyGrows(c1: seq<ExcludeCondition>, c2: seq<ExcludeCondition>, row: Row)
    requires CheckConditions(c1, row) == Ok(true)
    requires CheckConditions(c1 + c2, row).Ok?
    ensures CheckConditions(c1 + c2, row) == Ok(true)
  {
    CheckConditionsMeaning(c1, row);
    CheckConditionsMeaning(c1 + c2, row);
    var i :| 0 <= i < |c1| && Excludes(c1[i], row);
    assert (c1 + c2)[i] == c1[i];
  }

  // ---------------------------------------------------------------------------
  // Second-account classifier

  /** The position of the first rule whose pattern matches the hint. */
  function FirstMatch(mapping: seq<Mapping>, hint: string): (r: Option<nat>)
    ensures r.Some? ==> r.value < |mapping| && Matches(mapping[r.value].key, hint)
    ensures r.Some? ==> forall j :: 0 <= j < r.value ==> !Matches(mapping[j].key, hint)
    ensures r.None? ==> forall j :: 0 <= j < |mapping| ==> !Matches(mapping[j].key, hint)
    decreases |mapping|
  {
    if mapping == [] then None
    else if Matches(mapping[0].key, hint) then Some(0)
    else match FirstMatch(mapping[1..], hint)
      case None => None
      case Some(i) => Some(i + 1)
  }

  /** The table consulted: expenses when the amount starts with `-`, income
      otherwise. */
  function SelectMapping(tables: PayeeToSecondAccount, amount: string): seq<Mapping>
    requires amount != []
  {
    if amount[0] == '-' then tables.expense else tables.income
  }

  /** `get_second_accoutn` as a value: the account of the first matching rule
      of the selected table, or the default second account. */
  function SecondAccount(settings: Settings, row: Row): Result<string> {
    var cols := settings.ledgerRecordToRow;
    match Field(row, cols.secondAccountHint)
    case Panic(f) => Panic(f)
    case Ok(hint) =>
      match Field(row, cols.firstAmount)
      case Panic(f) => Panic(f)
      case Ok(amount) =>
        if amount == [] then Panic(EmptyAmount)
        else
          var mapping := SelectMapping(settings.payeeToSecondAccount, amount);
          match FirstMatch(mapping, hint)
          case Some(i) => Ok(mapping[i].value)
          case None => Ok(settings.defaultSecondAccount)
  }

  /** The classifier reads the hint and the amount (panicking past the row's
      end or on an empty amount), consults only the table the amount's sign
      selects, and answers with the first rule in table order whose pattern
      matches the hint, or with the default second account when none does. */
  lemma SecondAccountMeaning(settings: Settings, row: Row)
    ensures var cols := settings.ledgerRecordToRow;
      var r := SecondAccount(settings, row);
      (r.Ok? <==> cols.secondAccountHint < |row| && cols.firstAmount < |row| && row[cols.firstAmount] != []) &&
      (r.Ok? ==>
        var hint, amount := row[cols.secondAccountHint], row[cols.firstAmount];
        var mapping := if amount[0] == '-' then settings.payeeToSecondAccount.expense
                       else settings.payeeToSecondAccount.income;
        ((exists i :: 0 <= i < |mapping| && Matches(mapping[i].key, hint) &&
            r.value == mapping[i].value &&
            forall j :: 0 <= j < i ==> !Matches(mapping[j].key, hint)) ||
         ((forall i :: 0 <= i < |mapping| ==> !Matches(mapping[i].key, hint)) &&
            r.value == settings.defaultSecondAccount)))
  {
    var cols := settings.ledgerRecordToRow;
    if cols.secondAccountHint < |row| && cols.firstAmount < |row| && row[cols.firstAmount] != [] {
      var hint, amount := row[cols.secondAccountHint], row[cols.firstAmount];
      var mapping := SelectMapping(settings.payeeToSecondAccount, amount);
      var m := FirstMatch(mapping, hint);
      if m.Some? {
        assert Matches(mapping[m.value].key, hint);
      }
    }
  }

  /** `get_second_accoutn`: a loop over the selected table that returns at the
      first match. */
  method GetSecondAccount(settings: Settings, row: Row) returns (r: Result<string>)
    ensures r == SecondAccount(settings, row)
  {
    var cols := settings.ledgerRecordToRow;
    if cols.secondAccountHint >= |row| {
      return Panic(ColumnOutOfRange(cols.secondAccountHint, |row|));
    }
    var hint := row[cols.secondAccountHint];
    if cols.firstAmount >= |row| {
      return Panic(ColumnOutOfRange(cols.firstAmount, |row|));
    }
    var amount := row[cols.firstAmount];
    if |amount| == 0 {
      return Panic(EmptyAmount);
    }
    var mapping;
    if amount[0] == '-' {
      mapping := settings.payeeToSecondAccount.expense;
    } else {
      mapping := settings.payeeToSecondAccount.income;
    }
    for i := 0 to |mapping|
      invariant forall j :: 0 <= j < i ==> !Matches(mapping[j].key, hint)
    {
      if Matches(mapping[i].key, hint) {
        FirstMatchIs(mapping, hint, i);
        return Ok(mapping[i].value);
      }
    }
    FirstMatchIsNone(mapping, hint);
    return Ok(settings.defaultSecondAccount);
  }

  /** A matching rule with no matching rule before it is the first match. */
  lemma {:induction false} FirstMatchIs(mapping: seq<Mapping>, hint: string, i: nat)
    requires i < |mapping| && Matches(mapping[i].key, hint)
    requires forall j :: 0 <= j < i ==> !Matches(mapping[j].key, hint)
    ensures FirstMatch(mapping, hint) == Some(i)
    decreases i
  {
    if i > 0 {
      FirstMatchIs(mapping[1..], hint, i - 1);
    }
  }

  /** With no matching rule there is no first match. */
  lemma {:induction false} FirstMatchIsNone(mapping: seq<Mapping>, hint: string)
    requires forall j :: 0 <= j < |mapping| ==> !Matches(mapping[j].key, hint)
    ensures FirstMatch(mapping, hint) == None
    decreases |mapping|
  {
    if mapping != [] {
      FirstMatchIsNone(mapping[1..], hint);
    }
  }

  // ---------------------------------------------------------------------------
  // One row

  /** What one row leads to. */
  datatype RowOutcome = Excluded | Emitted(record: Ledger.LedgerRecord) | Panicked(fault: Fault)

  /** The entry of a row that is not excluded, read field by field in the
      order `print` reads them; the first missing field or unreadable value
      panics. The comment is absent. */
  function ReadEntry(settings: Settings, row: Row): Result<Ledger.LedgerRecord> {
    match GetDate(settings, row)
    case Panic(f) => Panic(f)
    case Ok(date) =>
      match GetPayee(settings, row)
      case Panic(f) => Panic(f)
      case Ok(payee) =>
        match GetFirstAmount(settings, row)
        case Panic(f) => Panic(f)
        case Ok(amount) =>
          match GetFirstAmountCurrency(settings, row)
          case Panic(f) => Panic(f)
          case Ok(currency) =>
            match SecondAccount(settings, row)
            case Panic(f) => Panic(f)
            case Ok(second) =>
              Ok(Ledger.New(date, payee, settings.defaultFirstAccount, amount, currency, second, None))
  }

  /** An entry is read exactly when every column it reads is inside the row,
      the date parses and the amount is not empty. The entry written for a
      row: its first account is the default first
      account, its amount and currency are the row's fields as they are, its
      payee is the trimmed payee field, its date is the trimmed date field read
      as `%d/%m/%Y`, its second account is the classifier's answer, and it has
      no comment. */
  lemma ReadEntryMeaning(settings: Settings, row: Row)
    ensures var cols := settings.ledgerRecordToRow;
      var e := ReadEntry(settings, row);
      e.Ok? ==>
        var r := e.value;
        cols.date < |row| && cols.payee < |row| && cols.firstAmount < |row| &&
        cols.firstAmountCurrency < |row| &&
        r.firstAccount == settings.defaultFirstAccount &&
        r.firstAmount == row[cols.firstAmount] &&
        r.firstAmountCurrency == row[cols.firstAmountCurrency] &&
        IsTrimmed(row[cols.payee], r.payee) &&
        ParseDayMonthYear(Trim(row[cols.date])) == Some(r.date) &&
        SecondAccount(settings, row) == Ok(r.secondAccount) &&
        r.comment == None
    ensures var cols := settings.ledgerRecordToRow;
      ReadEntry(settings, row).Ok? <==>
        cols.date < |row| && ParseDayMonthYear(Trim(row[cols.date])).Some? &&
        cols.payee < |row| && cols.firstAmount < |row| &&
        cols.firstAmountCurrency < |row| && cols.secondAccountHint < |row| &&
        row[cols.firstAmount] != []
  {
    ReadEntrySteps(settings, row);
    SecondAccountReads(settings, row);
  }

  /** An entry is read exactly when each field read succeeds. */
  lemma ReadEntrySteps(settings: Settings, row: Row)
    ensures ReadEntry(settings, row).Ok? <==>
      GetDate(settings, row).Ok? && GetPayee(settings, row).Ok? &&
      GetFirstAmount(settings, row).Ok? && GetFirstAmountCurrency(settings, row).Ok? &&
      SecondAccount(settings, row).Ok?
  {
  }

  /** The classifier answers exactly when the hint and amount columns are
      inside the row and the amount is not empty. */
  lemma SecondAccountReads(settings: Settings, row: Row)
    ensures var cols := settings.ledgerRecordToRow;
      SecondAccount(settings, row).Ok? <==>
        cols.secondAccountHint < |row| && cols.firstAmount < |row| && row[cols.firstAmount] != []
  {
  }

  /** The body of `print`'s loop for one row. The address field is read only
      when debug logging is on, since `log::debug!` evaluates its arguments only
      then. */
  function ProcessRow(settings: Settings, debugLogging: bool, row: Row): RowOutcome {
    var cols := settings.ledgerRecordToRow;
    if debugLogging && cols.meta.address >= |row| then
      Panicked(ColumnOutOfRange(cols.meta.address, |row|))
    else match CheckConditions(settings.excludeConditions, row)
      case Panic(f) => Panicked(f)
      case Ok(excluded) =>
        if excluded then Excluded
        else match ReadEntry(settings, row)
          case Panic(f) => Panicked(f)
          case Ok(record) => Emitted(record)
  }

  /** A row is dropped exactly when the columns the exclusion filter reads
      are all there and some exclusion condition holds of it. A row is written
      exactly when those columns are there, no condition holds and its entry
      can be read, and it is written as `ReadEntry` reads it. */
  lemma ProcessRowMeaning(settings: Settings, debugLogging: bool, row: Row)
    ensures var conditions := settings.excludeConditions;
      var out := ProcessRow(settings, debugLogging, row);
      (out.Excluded? <==>
        (!debugLogging || settings.ledgerRecordToRow.meta.address < |row|) &&
        (forall i :: 0 <= i < |conditions| ==> conditions[i].column < |row|) &&
        (exists i :: 0 <= i < |conditions| && Excludes(conditions[i], row))) &&
      (out.Emitted? ==> ReadEntry(settings, row) == Ok(out.record)) &&
      (out.Emitted? <==>
        (!debugLogging || settings.ledgerRecordToRow.meta.address < |row|) &&
        (forall i :: 0 <= i < |conditions| ==> conditions[i].column < |row|) &&
        !(exists i :: 0 <= i < |conditions| && Excludes(conditions[i], row)) &&
        ReadEntry(settings, row).Ok?)
  {
    CheckConditionsMeaning(settings.excludeConditions, row);
  }

  /** `ProcessRow` computed the way `print`'s loop body does it. */
  method ProcessRecord(settings: Settings, debugLogging: bool, row: Row) returns (out: RowOutcome)
    ensures out == ProcessRow(settings, debugLogging, row)
  {
    var cols := settings.ledgerRecordToRow;
    if debugLogging && cols.meta.address >= |row| {
      return Panicked(ColumnOutOfRange(cols.meta.address, |row|));
    }
    var excluded := ShouldExclude(settings.excludeConditions, row);
    if excluded.Panic? {
      return Panicked(excluded.fault);
    }
    if excluded.value {
      return Excluded;
    }
    var date := GetDate(settings, row);
    if date.Panic? {
      return Panicked(date.fault);
    }
    var payee := GetPayee(settings, row);
    if payee.Panic? {
      return Panicked(payee.fault);
    }
    var amount := GetFirstAmount(settings, row);
    if amount.Panic? {
      return Panicked(amount.fault);
    }
    var currency := GetFirstAmountCurrency(settings, row);
    if currency.Panic? {
      return Panicked(currency.fault);
    }
    var second := GetSecondAccount(settings, row);
    if second.Panic? {
      return Panicked(second.fault);
    }
    var record := Ledger.New(date.value, payee.value, settings.defaultFirstAccount,
                             amount.value, currency.value, second.value, None);
    return Emitted(record);
  }

  // ---------------------------------------------------------------------------
  // The run over all rows

  /** The outcome of every row, in file order. */
  function Outcomes(settings: Settings, debugLogging: bool, rows: seq<Row>): (outs: seq<RowOutcome>)
    ensures |outs| == |rows|
    ensures forall i :: 0 <= i < |rows| ==> outs[i] == ProcessRow(settings, debugLogging, rows[i])
  {
    seq(|rows|, i requires 0 <= i < |rows| => ProcessRow(settings, debugLogging, rows[i]))
  }

  /** What a run has written, and the panic that ended it, if any. */
  datatype Trace = Trace(lines: seq<string>, panic: Option<Fault>)

  /** The rows' outcomes taken in order, as `print` takes them: an excluded
      row writes nothing, an entry writes its block after everything before
      it, and the first panic ends the run. */
  function Write(outs: seq<RowOutcome>): Trace
    decreases |outs|
  {
    if outs == [] then Trace([], None)
    else Step(Write(outs[..|outs| - 1]), outs[|outs| - 1])
  }

  /** One more outcome after a run written so far. */
  function Step(t: Trace, out: RowOutcome): Trace {
    if t.panic.Some? then t
    else match out
      case Excluded => t
      case Emitted(record) => Trace(t.lines + Ledger.Print(record), None)
      case Panicked(f) => Trace(t.lines, Some(f))
  }

  /** Writing one outcome more is one more step. */
  lemma WritePrefix(outs: seq<RowOutcome>, i: nat)
    requires i < |outs|
    ensures Write(outs[..i + 1]) == Step(Write(outs[..i]), outs[i])
  {
    assert outs[..i + 1][..i] == outs[..i];
  }

  /** `Bank2Ledger::print` as a value. */
  function Run(settings: Settings, debugLogging: bool, rows: seq<Row>): Trace {
    Write(Outcomes(settings, debugLogging, rows))
  }

  /** Once a run has panicked, the outcomes after it change nothing. */
  lemma {:induction false} WritePanicStays(outs: seq<RowOutcome>, n: nat)
    requires n <= |outs| && Write(outs[..n]).panic.Some?
    ensures Write(outs) == Write(outs[..n])
    decreases |outs| - n
  {
    if n < |outs| {
      var m := |outs| - 1;
      assert outs[..m][..n] == outs[..n];
      WritePanicStays(outs[..m], n);
    } else {
      assert outs[..n] == outs;
    }
  }

  /** `Bank2Ledger::print`: the loop over the rows, writing each entry as it
      goes and stopping at the first panic. */
  method Print(settings: Settings, debugLogging: bool, rows: seq<Row>)
    returns (lines: seq<string>, panic: Option<Fault>)
    ensures Trace(lines, panic) == Run(settings, debugLogging, rows)
  {
    ghost var outs := Outcomes(settings, debugLogging, rows);
    lines, panic := [], None;
    for i := 0 to |rows|
      invariant Write(outs[..i]) == Trace(lines, None)
    {
      var out := ProcessRecord(settings, debugLogging, rows[i]);
      WritePrefix(outs, i);
      assert Write(outs[..i + 1]) == Step(Trace(lines, None), out);
      match out {
        case Excluded =>
        case Emitted(record) =>
          lines := lines + Ledger.Print(record);
        case Panicked(f) =>
          panic := Some(f);
          WritePanicStays(outs, i + 1);
          return;
      }
    }
    assert outs[..|rows|] == outs;
  }

  // ---------------------------------------------------------------------------
  // What a run writes

  /** The entries among the outcomes, in order. */
  function Records(outs: seq<RowOutcome>): seq<Ledger.LedgerRecord>
    decreases |outs|
  {
    if outs == [] then []
    else
      var last := outs[|outs| - 1];
      Records(outs[..|outs| - 1]) + (if last.Emitted? then [last.record] else [])
  }

  /** The text blocks of the entries, one after another. */
  function Render(records: seq<Ledger.LedgerRecord>): seq<string>
    decreases |records|
  {
    if records == [] then [] else Ledger.Print(records[0]) + Render(records[1..])
  }

  /** No row panics. */
  predicate NoPanic(outs: seq<RowOutcome>) {
    forall i :: 0 <= i < |outs| ==> !outs[i].Panicked?
  }

  lemma {:induction false} RecordsSnoc(outs: seq<RowOutcome>, out: RowOutcome)
    ensures Records(outs + [out]) == Records(outs) + (if out.Emitted? then [out.record] else [])
  {
    assert (outs + [out])[..|outs|] == outs;
  }

  lemma {:induction false} RenderSnoc(records: seq<Ledger.LedgerRecord>, record: Ledger.LedgerRecord)
    ensures Render(records + [record]) == Render(records) + Ledger.Print(record)
    decreases |records|
  {
    if records == [] {
      assert records + [record] == [record];
    } else {
      assert (records + [record])[1..] == records[1..] + [record];
      RenderSnoc(records[1..], record);
    }
  }

  /** Without panics, a run writes the block of every entry, in order, and
      nothing for the excluded rows. */
  lemma {:induction false} WriteRendersRecords(outs: seq<RowOutcome>)
    requires NoPanic(outs)
    ensures Write(outs) == Trace(Render(Records(outs)), None)
    decreases |outs|
  {
    if outs != [] {
      var m := |outs| - 1;
      var init, last := outs[..m], outs[m];
      assert outs == init + [last];
      assert NoPanic(init) by {
        forall i | 0 <= i < |init| ensures !init[i].Panicked? {
          assert init[i] == outs[i];
        }
      }
      WriteRendersRecords(init);
      RecordsSnoc(init, last);
      if last.Emitted? {
        RenderSnoc(Records(init), last.record);
      } else {
        assert Records(init) + [] == Records(init);
      }
    }
  }

  /** A run over rows none of which panics writes, in row order, the block of
      every row that is not excluded and nothing for the excluded ones. */
  lemma RunWritesRecords(settings: Settings, debugLogging: bool, rows: seq<Row>)
    requires forall i :: 0 <= i < |rows| ==> !ProcessRow(settings, debugLogging, rows[i]).Panicked?
    ensures Run(settings, debugLogging, rows) ==
      Trace(Render(Records(Outcomes(settings, debugLogging, rows))), None)
  {
    WriteRendersRecords(Outcomes(settings, debugLogging, rows));
  }

  /** When row `k` is the first to panic, the run writes exactly the blocks of
      the rows before it and reports that row's panic. */
  lemma RunStopsAtFirstPanic(settings: Settings, debugLogging: bool, rows: seq<Row>, k: nat)
    requires k < |rows| && ProcessRow(settings, debugLogging, rows[k]).Panicked?
    requires forall i :: 0 <= i < k ==> !ProcessRow(settings, debugLogging, rows[i]).Panicked?
    ensures Run(settings, debugLogging, rows) ==
      Trace(Render(Records(Outcomes(settings, debugLogging, rows[..k]))),
            Some(ProcessRow(settings, debugLogging, rows[k]).fault))
  {
    var outs := Outcomes(settings, debugLogging, rows);
    assert outs[..k] == Outcomes(settings, debugLogging, rows[..k]);
    WriteRendersRecords(outs[..k]);
    assert outs[..k + 1][..k] == outs[..k];
    WritePanicStays(outs, k + 1);
  }

  /** Every entry comes from some row's outcome. */
  lemma {:induction false} RecordsComeFromOutcomes(outs: seq<RowOutcome>, r: Ledger.LedgerRecord)
    requires r in Records(outs)
    ensures exists i :: 0 <= i < |outs| && outs[i] == Emitted(r)
    decreases |outs|
  {
    var m := |outs| - 1;
    if outs[m] != Emitted(r) {
      var init := outs[..m];
      assert r in Records(init);
      RecordsComeFromOutcomes(init, r);
      var i :| 0 <= i < |init| && init[i] == Emitted(r);
      assert outs[i] == Emitted(r);
    }
  }

  /** Every written entry posts to the default first account and carries no
      comment. */
  lemma RecordsUseDefaultFirstAccount(settings: Settings, debugLogging: bool, rows: seq<Row>)
    ensures forall r :: r in Records(Outcomes(settings, debugLogging, rows)) ==>
      r.firstAccount == settings.defaultFirstAccount && r.comment == None
  {
    var outs := Outcomes(settings, debugLogging, rows);
    forall r | r in Records(outs)
      ensures r.firstAccount == settings.defaultFirstAccount && r.comment == None
    {
      RecordsComeFromOutcomes(outs, r);
      var i :| 0 <= i < |outs| && outs[i] == Emitted(r);
      ProcessRowMeaning(settings, debugLogging, rows[i]);
      ReadEntryMeaning(settings, rows[i]);
    }
  }

  /** The positions of the rows that are not excluded. */
  function Kept(outs: seq<RowOutcome>): set<nat> {
    set i: nat | i < |outs| && !outs[i].Excluded?
  }

  /** One more outcome keeps its position exactly when it is not an exclusion. */
  lemma KeptSnoc(outs: seq<RowOutcome>, out: RowOutcome)
    ensures Kept(outs + [out]) == Kept(outs) + (if out.Excluded? then {} else {|outs|})
    ensures |outs| !in Kept(outs)
  {
    var all := outs + [out];
    assert forall i :: 0 <= i < |outs| ==> all[i] == outs[i];
  }

  /** Excluded rows add no entry, and every other row of a run without panics
      adds exactly one: the entries are as many as the rows not excluded. */
  lemma {:induction false} RecordsCount(outs: seq<RowOutcome>)
    requires NoPanic(outs)
    ensures |Records(outs)| == |Kept(outs)|
    decreases |outs|
  {
    if outs == [] {
      assert Kept(outs) == {};
    } else {
      var m := |outs| - 1;
      var init := outs[..m];
      assert outs == init + [outs[m]];
      assert NoPanic(init) by {
        forall i | 0 <= i < m ensures !init[i].Panicked? {
          assert init[i] == outs[i];
        }
      }
      RecordsCount(init);
      KeptSnoc(init, outs[m]);
    }
  }
}
