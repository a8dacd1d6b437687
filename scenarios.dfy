/** Worked examples of the pipeline on a concrete row. */
module Scenarios {
  import opened Wrappers
  import opened Text
  import opened Dates
  import opened Bank2Ledger
  import Ledger

  /** Date in column 0, payee (also the classification hint) in column 1,
      amount in column 2, currency in column 3; no exclusion conditions. */
  const CafeSettings: Settings := Settings(
    "Assets:Bank",
    "Expenses:Unknown",
    LedgerRecordToRow(0, 1, 1, 2, 3, Meta(1)),
    [],
    PayeeToSecondAccount(
      [Mapping("SALARY", "Income:Job"), Mapping("tesco", "Expenses:Groceries")],
      [Mapping("SALARY", "Income:Job")]))

  const CafeRow: Row := ["29/07/2023", " Crown Cafe Bar ", "-13.30", "GBP"]

  const CafeDate: CalendarDate := Date(2023, 7, 29)

  const CafeRecord: Ledger.LedgerRecord :=
    Ledger.New(CafeDate, "Crown Cafe Bar", "Assets:Bank", "-13.30", "GBP",
               "Expenses:Unknown", None)

  /** The block the café row is written as: the date in ISO form and the
      trimmed payee, the posting of the amount to the default first account,
      the default second account, and the empty line that ends the entry. */
  const CafeLines: seq<string> := [
    "2023-07-29" + " * \"" + "Crown Cafe Bar" + "\"",
    "        " + "Assets:Bank" + "        " + "-13.30" + " " + "GBP",
    "        " + "Expenses:Unknown",
    ""]

  /** A pattern one of whose letters (in either case) does not occur in the
      hint does not match it. */
  lemma LetterAbsent(pattern: string, hint: string, j: nat)
    requires j < |pattern|
    requires forall k :: 0 <= k < |hint| ==> LowerChar(hint[k]) != LowerChar(pattern[j])
    ensures !Matches(pattern, hint)
  {
    MatchesMeaning(pattern, hint);
    forall i | 0 <= i ensures !FoldedOccursAt(pattern, hint, i) {
      if i + |pattern| <= |hint| {
        assert LowerChar(hint[i + j]) != LowerChar(pattern[j]);
      }
    }
  }

  /** When the first letter of no rule's pattern occurs in the hint, no rule
      matches. */
  lemma NoRuleMatches(rules: seq<Mapping>, hint: string)
    requires forall j :: 0 <= j < |rules| ==> rules[j].key != []
    requires forall j, k :: 0 <= j < |rules| && 0 <= k < |hint| ==>
      LowerChar(hint[k]) != LowerChar(rules[j].key[0])
    ensures FirstMatch(rules, hint) == None
  {
    forall j | 0 <= j < |rules| ensures !Matches(rules[j].key, hint) {
      LetterAbsent(rules[j].key, hint, 0);
    }
    FirstMatchIsNone(rules, hint);
  }

  /** Trimming text without surrounding whitespace changes nothing. */
  lemma TrimNoop(s: string)
    requires s != [] && !IsWhitespace(s[0]) && !IsWhitespace(s[|s| - 1])
    ensures Trim(s) == s
  {
    assert TrimStart(s) == s;
    assert TrimEnd(s) == s;
  }

  /** One trailing space is dropped from text that ends otherwise. */
  lemma TrimEndOne(t: string)
    requires t != [] && !IsWhitespace(t[|t| - 1])
    ensures TrimEnd(t + [' ']) == t
  {
    assert (t + [' '])[..|t|] == t;
  }

  lemma CafePayeeStart()
    ensures TrimStart(" Crown Cafe Bar ") == "Crown Cafe Bar "
  {
    assert " Crown Cafe Bar " == [' '] + "Crown Cafe Bar ";
    TrimStartSkips([' '], "Crown Cafe Bar ");
  }

  lemma CafePayeeEnd()
    ensures TrimEnd("Crown Cafe Bar ") == "Crown Cafe Bar"
  {
    assert "Crown Cafe Bar " == "Crown Cafe Bar" + [' '];
    TrimEndOne("Crown Cafe Bar");
  }

  lemma CafeYear()
    ensures DecimalValue("2023") == 2023
  {
    assert "2023"[..3] == "202";
    assert "202"[..2] == "20";
    assert "20"[..1] == "2";
  }

  lemma CafeDayMonth()
    ensures DecimalValue("29") == 29 && DecimalValue("07") == 7
  {
    assert "29"[..1] == "2";
    assert "07"[..1] == "0";
  }

  lemma CafeDateShape()
    ensures "29/07/2023" == [] + "29" + (['/'] + ([] + "07" + (['/'] + ([] + "2023"))))
  {
    assert [] + "2023" == "2023";
    assert ['/'] + "2023" == "/2023";
    assert [] + "07" + "/2023" == "07/2023";
    assert ['/'] + "07/2023" == "/07/2023";
    assert [] + "29" + "/07/2023" == "29/07/2023";
  }

  lemma CafeDateParsed()
    ensures ParseDayMonthYear("29/07/2023") == Some(Date(2023, 7, 29))
  {
    CafeYear();
    CafeDayMonth();
    CafeDateShape();
    ParseAccepts([], "29", [], "07", [], "2023");
  }

  lemma CafeYearWritten()
    ensures Padded(2023, 4) == "2023"
  {
  }

  lemma CafeMonthWritten()
    ensures Padded(7, 2) == "07"
  {
  }

  lemma CafeDayWritten()
    ensures Padded(29, 2) == "29"
  {
  }

  lemma CafeIsoPieces()
    ensures "2023" + "-" + "07" + "-" + "29" == "2023-07-29"
  {
  }

  lemma CafeDateWritten()
    ensures IsoText(Date(2023, 7, 29)) == "2023-07-29"
  {
    CafeYearWritten();
    CafeMonthWritten();
    CafeDayWritten();
    CafeIsoPieces();
  }

  lemma CafeDateField()
    ensures GetDate(CafeSettings, CafeRow) == Ok(CafeDate)
  {
    TrimNoop("29/07/2023");
    CafeDateParsed();
  }

  lemma CafePayeeField()
    ensures GetPayee(CafeSettings, CafeRow) == Ok("Crown Cafe Bar")
  {
    CafePayeeStart();
    CafePayeeEnd();
  }

  /** No rule of the expense table matches "Crown Cafe Bar", so the row falls
      back to the default second account. */
  lemma CafeClassified()
    ensures SecondAccount(CafeSettings, CafeRow) == Ok("Expenses:Unknown")
  {
    CafeNoRule();
    assert CafeRow[1] == " Crown Cafe Bar " && CafeRow[2] == "-13.30";
  }

  lemma CafeNoRule()
    ensures FirstMatch(CafeSettings.payeeToSecondAccount.expense, " Crown Cafe Bar ") == None
  {
    var rules := [Mapping("SALARY", "Income:Job"), Mapping("tesco", "Expenses:Groceries")];
    assert CafeSettings.payeeToSecondAccount.expense == rules;
    NoRuleMatches(rules, " Crown Cafe Bar ");
  }

  lemma CafeProcessed()
    ensures ProcessRow(CafeSettings, false, CafeRow) == Emitted(CafeRecord)
  {
    CafeDateField();
    CafePayeeField();
    CafeClassified();
    assert ReadEntry(CafeSettings, CafeRow) == Ok(CafeRecord);
  }

  lemma CafeHeader()
    ensures Ledger.Header(CafeRecord) == "2023-07-29" + " * \"" + "Crown Cafe Bar" + "\""
  {
    CafeDateWritten();
  }

  lemma CafePosting()
    ensures Ledger.Posting(CafeRecord)
         == "        " + "Assets:Bank" + "        " + "-13.30" + " " + "GBP"
  {
  }

  /** Without a comment, a record is written as four lines. */
  lemma PrintWithoutComment(r: Ledger.LedgerRecord)
    requires r.comment == None
    ensures Ledger.Print(r)
         == [Ledger.Header(r), Ledger.Posting(r), Ledger.TabAsSpaces + r.secondAccount, ""]
  {
  }


  lemma CafePrinted()
    ensures Ledger.Print(CafeRecord)
         == CafeLines
  {
    PrintWithoutComment(CafeRecord);
    CafeHeader();
    CafePosting();
  }

  /** A single outcome that emits a record writes exactly its block. */
  lemma WriteOne(record: Ledger.LedgerRecord)
    ensures Write([Emitted(record)]) == Trace(Ledger.Print(record), None)
  {
    assert [Emitted(record)][..0] == [];
  }

  /** A run over one row writes what that row's outcome writes. */
  lemma RunOne(settings: Settings, debugLogging: bool, row: Row)
    ensures Run(settings, debugLogging, [row]) == Write([ProcessRow(settings, debugLogging, row)])
  {
    assert Outcomes(settings, debugLogging, [row]) == [ProcessRow(settings, debugLogging, row)];
  }

  /** A row whose payee matches no rule is written with the default second
      account, the date in ISO form and the amount and currency as they are. */
  lemma CafeRowIsWritten()
    ensures Run(CafeSettings, false, [CafeRow])
         == Trace(CafeLines, None)
  {
    RunOne(CafeSettings, false, CafeRow);
    CafeProcessed();
    WriteOne(CafeRecord);
    CafePrinted();
  }

  /** A salary rule and a supermarket rule. */
  const ExpenseRules: seq<Mapping> :=
    [Mapping("SALARY", "Income:Job"), Mapping("TESCO", "Expenses:Groceries")]

  lemma TescoMatches()
    ensures Matches("TESCO", "TESCO EXPRESS 123")
  {
    assert FoldedOccursAt("TESCO", "TESCO EXPRESS 123", 0);
    MatchesMeaning("TESCO", "TESCO EXPRESS 123");
  }

  lemma SalaryDoesNotMatch()
    ensures !Matches("SALARY", "TESCO EXPRESS 123")
  {
    LetterAbsent("SALARY", "TESCO EXPRESS 123", 1);
  }

  /** The hint is tried against the rules in order: "SALARY" does not occur
      in it (it has no "A"), "TESCO" does, so the second rule decides. */
  lemma TescoClassified()
    ensures FirstMatch(ExpenseRules, "TESCO EXPRESS 123") == Some(1)
    ensures ExpenseRules[1].value == "Expenses:Groceries"
  {
    SalaryDoesNotMatch();
    TescoMatches();
    assert ExpenseRules[0].key == "SALARY" && ExpenseRules[1].key == "TESCO";
    FirstMatchIs(ExpenseRules, "TESCO EXPRESS 123", 1);
  }
}
