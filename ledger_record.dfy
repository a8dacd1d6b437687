/** One journal entry of a plain-text ledger and the text block it is
    written as. */
module Ledger {
  import opened Wrappers
  import opened Dates

  datatype LedgerRecord = LedgerRecord(
    date: CalendarDate,
    payee: string,
    firstAccount: string,
    firstAmount: string,
    firstAmountCurrency: string,
    secondAccount: string,
    comment: Option<string>)

  /** `LedgerRecord::new`: every argument is kept as given. */
  function New(date: CalendarDate, payee: string, firstAccount: string, firstAmount: string,
               firstAmountCurrency: string, secondAccount: string, comment: Option<string>): (r: LedgerRecord)
    ensures r.date == date && r.payee == payee && r.firstAccount == firstAccount
    ensures r.firstAmount == firstAmount && r.firstAmountCurrency == firstAmountCurrency
    ensures r.secondAccount == secondAccount && r.comment == comment
  {
    LedgerRecord(date, payee, firstAccount, firstAmount, firstAmountCurrency, secondAccount, comment)
  }

  /** The indentation of every line after the first: eight spaces. */
  const TabAsSpaces: string := "        "

  function Header(r: LedgerRecord): string {
    IsoText(r.date) + " * \"" + r.payee + "\""
  }

  function Posting(r: LedgerRecord): string {
    TabAsSpaces + r.firstAccount + TabAsSpaces + r.firstAmount + " " + r.firstAmountCurrency
  }

  /** `LedgerRecord::print`: the lines it writes, in order. */
  function Print(r: LedgerRecord): seq<string> {
    [Header(r)] +
    (match r.comment case Some(c) => [TabAsSpaces + "; " + c] case None => []) +
    [Posting(r), TabAsSpaces + r.secondAccount, ""]
  }

  /** The block is four lines without a comment and five with one: the
      header; the comment line right after it when there is a comment; the
      posting of the amount to the first account; the second account; and
      one empty line that ends the entry. */
  lemma PrintLayout(r: LedgerRecord)
    ensures var lines := Print(r);
      var n := if r.comment.Some? then 5 else 4;
      |lines| == n &&
      lines[0] == IsoText(r.date) + " * \"" + r.payee + "\"" &&
      (r.comment.Some? ==> lines[1] == "        ; " + r.comment.value) &&
      lines[n - 3] == "        " + r.firstAccount + "        " + r.firstAmount + " " + r.firstAmountCurrency &&
      lines[n - 2] == "        " + r.secondAccount &&
      lines[n - 1] == ""
  {
  }

  /** Only the last line of a block is empty, so entries written one after
      another stay apart. */
  lemma PrintEndsWithOnlyBlankLine(r: LedgerRecord)
    ensures var lines := Print(r);
      lines[|lines| - 1] == "" && forall k :: 0 <= k < |lines| - 1 ==> lines[k] != ""
  {
    var lines := Print(r);
    assert |Header(r)| >= 10 by { IsoTextReadsBack(r.date); }
    assert Header(r) != "";
    forall k | 0 <= k < |lines| - 1 ensures lines[k] != "" {
      if k > 0 {
        assert lines[k][..8] == TabAsSpaces;
      }
    }
  }

  /** The header line reads back as the record's date and payee. */
  lemma HeaderReadsBack(r: LedgerRecord)
    ensures var h := Header(r);
      |h| >= 15 && h[10..14] == " * \"" && h[|h| - 1] == '"' &&
      h[14..|h| - 1] == r.payee && ParseIsoPrefix(h) == r.date
  {
    IsoTextReadsBack(r.date);
    var h := Header(r);
    var t := IsoText(r.date);
    assert h[..10] == t;
    assert h[..4] == t[..4] && h[5..7] == t[5..7] && h[8..10] == t[8..];
    assert h[14..|h| - 1] == r.payee;
  }

  /** The date at the front of a header line, read as `YYYY-MM-DD`. */
  function ParseIsoPrefix(h: string): Date
    requires |h| >= 10 && AllDigits(h[..4]) && AllDigits(h[5..7]) && AllDigits(h[8..10])
  {
    Date(DecimalValue(h[..4]), DecimalValue(h[5..7]), DecimalValue(h[8..10]))
  }

  /** The written block determines the record's date, payee, second account
      and comment: two records that print alike agree on them. */
  lemma PrintDeterminesFields(a: LedgerRecord, b: LedgerRecord)
    requires Print(a) == Print(b)
    ensures a.date == b.date && a.payee == b.payee
    ensures a.secondAccount == b.secondAccount && a.comment == b.comment
  {
    PrintLayout(a);
    PrintLayout(b);
    HeaderReadsBack(a);
    HeaderReadsBack(b);
    var n := |Print(a)|;
    assert a.comment.Some? <==> b.comment.Some?;
    assert ("        " + a.secondAccount)[8..] == a.secondAccount;
    assert ("        " + b.secondAccount)[8..] == b.secondAccount;
    if a.comment.Some? {
      assert ("        ; " + a.comment.value)[10..] == a.comment.value;
      assert ("        ; " + b.comment.value)[10..] == b.comment.value;
    }
  }
}
