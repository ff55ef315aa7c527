/**
 The extraction pipeline: a regex pass over each credit row, an AI fallback in batches for
 the rest, and a merge, run chunk by chunk.  What the AI answers, which jobs raise and in
 what order threads finish are all arbitrary here.
 */
module Extraction {
  import opened Core
  import opened Text
  import opened AgingMap
  import opened Batching
  import InvoiceScan

  // ---- data ----------------------------------------------------------------------------------

  datatype CreditRow = CreditRow(id: nat, ou: string, narrative: string, bankReference: string, customerReference: string)

  /** The texts a row is scanned for invoice numbers. */
  function TextParts(row: CreditRow): seq<string> { [row.narrative, row.bankReference, row.customerReference] }

  /** What the text scan and the fuzzy customer search make of one row. */
  datatype Scan = Scan(candidates: seq<string>, customer: Option<string>)

  datatype Layer2ARow = Layer2ARow(
    original: CreditRow, candidates: seq<string>, confirmed: seq<string>, customer: Option<string>)

  /** The usable fields of an AI answer for one row, or fields whose use raises. */
  datatype Reply =
    | Reply(invoices: seq<string>, customer: string, inOuList: bool)
    | Malformed

  /**
   One element of a batch answer: an object with a usable row_index, one whose row_index overflows
   on conversion (a JSON Infinity), which is not caught, or anything else, which is skipped.
   */
  datatype AiItem = Junk | Overflowing | Item(index: int, reply: Reply)

  /** The answers to one batch job; batch is None when the answer is no list, and singles are the fallback. */
  datatype JobReply = JobReply(batch: Option<seq<AiItem>>, singles: seq<Option<Reply>>)

  datatype Payment =
    | Identified(original: CreditRow, confirmed: seq<string>, customer: Option<string>)
    | Unknown(original: CreditRow, aiAttempted: bool)

  datatype JobResult = Completed(identified: seq<Payment>, unknown: seq<Payment>) | Raised

  datatype ExtractionResult = ExtractionResult(
    index: nat, total: nat, identified: seq<Payment>, unknown: seq<Payment>,
    rowCount: nat, identifiedCount: nat, unknownCount: nat, hits2a: nat, hits2b: nat)

  /** The open invoices, the scan of a row, and the two fuzzy customer searches. */
  datatype Context = Context(
    aging: seq<AgingInvoice>,
    scan: CreditRow -> Scan,
    customerInOu: (string, string) -> Option<string>,
    customerAnywhere: string -> Option<string>)

  function PaymentRow(p: Payment): CreditRow { p.original }

  function AnnotatedRow(row: Layer2ARow): CreditRow { row.original }

  function Originals(ps: seq<Payment>): seq<CreditRow> { Map(PaymentRow, ps) }

  function RowsOf(rows: seq<Layer2ARow>): seq<CreditRow> { Map(AnnotatedRow, rows) }

  // ---- the aging filter --------------------------------------------------------------------------

  /** The candidates that resolve for the row's operating unit, in order. */
  function Confirm(aging: seq<AgingInvoice>, numbers: seq<string>, ou: string): seq<string> {
    if numbers == [] then []
    else
      var init, last := numbers[..|numbers| - 1], numbers[|numbers| - 1];
      Confirm(aging, init, ou) + if Lookup(aging, last, ou).Some? then [last] else []
  }

  predicate AllResolve(aging: seq<AgingInvoice>, numbers: seq<string>, ou: string) {
    forall i :: 0 <= i < |numbers| ==> Lookup(aging, numbers[i], ou).Some?
  }

  predicate NoneResolves(aging: seq<AgingInvoice>, numbers: seq<string>, ou: string) {
    forall i :: 0 <= i < |numbers| ==> Lookup(aging, numbers[i], ou).None?
  }

  lemma {:induction false} ConfirmMeaning(aging: seq<AgingInvoice>, numbers: seq<string>, ou: string)
    ensures AllResolve(aging, Confirm(aging, numbers, ou), ou)
    ensures Confirm(aging, numbers, ou) == [] <==> NoneResolves(aging, numbers, ou)
    ensures AllResolve(aging, numbers, ou) ==> Confirm(aging, numbers, ou) == numbers
  {
    hide Lookup;
    if numbers != [] {
      var init, last := numbers[..|numbers| - 1], numbers[|numbers| - 1];
      ConfirmMeaning(aging, init, ou);
      SplitLast(numbers);
      if Lookup(aging, last, ou).None? {
        assert Confirm(aging, numbers, ou) == Confirm(aging, init, ou);
      } else {
        assert Confirm(aging, numbers, ou) == Confirm(aging, init, ou) + [last];
      }
    }
  }

  /** Exactly the numbers that resolve are kept. */
  lemma {:induction false} ConfirmExactly(aging: seq<AgingInvoice>, numbers: seq<string>, ou: string, n: string)
    ensures n in Confirm(aging, numbers, ou) <==> n in numbers && Lookup(aging, n, ou).Some?
  {
    hide Lookup;
    if numbers != [] {
      var init, last := numbers[..|numbers| - 1], numbers[|numbers| - 1];
      ConfirmExactly(aging, init, ou, n);
      SplitLast(numbers);
    }
  }

  // ---- layer 2A: the regex pass ---------------------------------------------------------------------

  function Annotate(ctx: Context, row: CreditRow): Layer2ARow {
    var s := ctx.scan(row);
    Layer2ARow(row, s.candidates, Confirm(ctx.aging, s.candidates, row.ou), s.customer)
  }

  /** The rows with a confirmed number, or those without one, in order. */
  function Split2A(ctx: Context, rows: seq<CreditRow>, found: bool): seq<Layer2ARow> {
    if rows == [] then []
    else
      var init, last := rows[..|rows| - 1], Annotate(ctx, rows[|rows| - 1]);
      Split2A(ctx, init, found) + if (last.confirmed != []) == found then [last] else []
  }

  lemma PartGrows(a: seq<CreditRow>, b: seq<CreditRow>, all: seq<CreditRow>, x: CreditRow)
    requires multiset(a) + multiset(b) == multiset(all)
    ensures multiset(a + [x]) + multiset(b) == multiset(all + [x])
    ensures multiset(a) + multiset(b + [x]) == multiset(all + [x])
  {
  }

  lemma Split2ASnoc(ctx: Context, rows: seq<CreditRow>)
    requires rows != []
    ensures var init, last := rows[..|rows| - 1], Annotate(ctx, rows[|rows| - 1]);
            && last.original == rows[|rows| - 1]
            && if last.confirmed != [] then
                 Split2A(ctx, rows, true) == Split2A(ctx, init, true) + [last] && Split2A(ctx, rows, false) == Split2A(ctx, init, false)
               else
                 Split2A(ctx, rows, true) == Split2A(ctx, init, true) && Split2A(ctx, rows, false) == Split2A(ctx, init, false) + [last]
  {
    hide Confirm;
  }

  lemma {:induction false} Split2AMeaning(ctx: Context, rows: seq<CreditRow>)
    ensures multiset(RowsOf(Split2A(ctx, rows, true))) + multiset(RowsOf(Split2A(ctx, rows, false))) == multiset(rows)
    ensures |Split2A(ctx, rows, true)| + |Split2A(ctx, rows, false)| == |rows|
  {
    if rows != [] {
      var init, last := rows[..|rows| - 1], Annotate(ctx, rows[|rows| - 1]);
      var a, b := Split2A(ctx, init, true), Split2A(ctx, init, false);
      Split2AMeaning(ctx, init);
      MapSnoc(AnnotatedRow, a, last);
      MapSnoc(AnnotatedRow, b, last);
      Split2ASnoc(ctx, rows);
      SplitLast(rows);
      PartGrows(RowsOf(a), RowsOf(b), init, last.original);
      hide *;
    }
  }

  /** Every found row carries at least one number, and all of them resolve; every other row carries none that does. */
  lemma {:induction false} Split2AConfirmed(ctx: Context, rows: seq<CreditRow>)
    ensures forall r :: r in Split2A(ctx, rows, true) ==> r.confirmed != [] && AllResolve(ctx.aging, r.confirmed, r.original.ou)
    ensures forall r :: r in Split2A(ctx, rows, false) ==> r.confirmed == [] && NoneResolves(ctx.aging, r.candidates, r.original.ou)
  {
    if rows != [] {
      var row := rows[|rows| - 1];
      Split2AConfirmed(ctx, rows[..|rows| - 1]);
      ConfirmMeaning(ctx.aging, ctx.scan(row).candidates, row.ou);
      hide AllResolve, NoneResolves, Confirm;
    }
  }

  method RunLayer2A(ctx: Context, rows: seq<CreditRow>) returns (found: seq<Layer2ARow>, notFound: seq<Layer2ARow>)
    ensures found == Split2A(ctx, rows, true) && notFound == Split2A(ctx, rows, false)
  {
    found, notFound := [], [];
    for i := 0 to |rows|
      invariant found == Split2A(ctx, rows[..i], true) && notFound == Split2A(ctx, rows[..i], false)
    {
      var row := rows[i];
      assert rows[..i + 1][..i] == rows[..i];
      var scan := ctx.scan(row);
      var confirmed: seq<string> := [];
      for c := 0 to |scan.candidates|
        invariant confirmed == Confirm(ctx.aging, scan.candidates[..c], row.ou)
      {
        assert scan.candidates[..c + 1][..c] == scan.candidates[..c];
        if Lookup(ctx.aging, scan.candidates[c], row.ou).Some? {
          confirmed := confirmed + [scan.candidates[c]];
        }
      }
      assert scan.candidates[..|scan.candidates|] == scan.candidates;
      var annotated := Layer2ARow(row, scan.candidates, confirmed, scan.customer);
      if confirmed != [] {
        found := found + [annotated];
      } else {
        notFound := notFound + [annotated];
      }
    }
    assert rows[..|rows|] == rows;
  }

  lemma {:induction false} FoundRow(ctx: Context, rows: seq<CreditRow>, row: CreditRow)
    requires row in rows && Annotate(ctx, row).confirmed != []
    ensures Annotate(ctx, row) in Split2A(ctx, rows, true)
  {
    hide Confirm;
    var init := rows[..|rows| - 1];
    SplitLast(rows);
    if row in init {
      FoundRow(ctx, init, row);
    }
  }

  /**
   The scan composed with the filter: a number of the row's unit that stands in the row's texts,
   however broken by blanks and line breaks, in a clear context, and that resolves in the aging
   rows, puts its row among the found ones with that number confirmed.
   */
  lemma BrokenNumberConfirmsRow(ctx: Context, rows: seq<CreditRow>, row: CreditRow, left: string, w: string, right: string)
    requires row in rows && row.ou != "" && InvoiceScan.IsScanOf(TextParts(row), row.ou, ctx.scan(row).candidates)
    requires Join(" ", InvoiceScan.NonEmpty(TextParts(row))) == left + w + right
    requires InvoiceScan.IsBroken(w) && InvoiceScan.IsInvoiceOf(InvoiceScan.OnlyDigits(w), row.ou)
    requires InvoiceScan.ClearBefore(left) && InvoiceScan.ClearAfter(right)
    requires Lookup(ctx.aging, InvoiceScan.OnlyDigits(w), row.ou).Some?
    ensures exists r :: r in Split2A(ctx, rows, true) && r.original == row && InvoiceScan.OnlyDigits(w) in r.confirmed
  {
    hide Lookup, Split2A, Confirm, TextParts, Join, InvoiceScan.OuScan, InvoiceScan.RowText, InvoiceScan.OnlyDigits,
      InvoiceScan.IsBroken, InvoiceScan.ClearBefore, InvoiceScan.ClearAfter, InvoiceScan.IsInvoiceOf, NoRepeats;
    var n := InvoiceScan.OnlyDigits(w);
    InvoiceScan.RowNumberIsFound(TextParts(row), left, w, right, row.ou);
    ConfirmExactly(ctx.aging, ctx.scan(row).candidates, row.ou, n);
    FoundRow(ctx, rows, row);
    assert Annotate(ctx, row).original == row;
  }
}
