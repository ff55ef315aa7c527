/**
 What becomes of one credit row: from its text or the answer to its job, to the payment that the
 chunk's result holds for it.
 */
module RowFates {
  import opened Core
  import opened Text
  import opened AgingMap
  import opened Batching
  import opened Extraction
  import opened AiFallback
  import opened ChunkProcessor
  import InvoiceScan

  // ---- confirmed numbers, in order -------------------------------------------------------------

  /** These are the resolving numbers of the list, in the order of the list; at holds their positions. */
  predicate PicksResolving(aging: seq<AgingInvoice>, numbers: seq<string>, ou: string, confirmed: seq<string>, at: seq<nat>) {
    && |at| == |confirmed|
    && (forall k :: 0 <= k < |at| ==>
          at[k] < |numbers| && confirmed[k] == numbers[at[k]] && Lookup(aging, numbers[at[k]], ou).Some?)
    && (forall j, k :: 0 <= j < k < |at| ==> at[j] < at[k])
    && (forall i: nat :: i < |numbers| && Lookup(aging, numbers[i], ou).Some? ==> i in at)
  }

  lemma PicksSnoc(aging: seq<AgingInvoice>, init: seq<string>, last: string, ou: string, confirmed: seq<string>, at: seq<nat>)
    requires PicksResolving(aging, init, ou, confirmed, at)
    ensures Lookup(aging, last, ou).None? ==> PicksResolving(aging, init + [last], ou, confirmed, at)
    ensures Lookup(aging, last, ou).Some? ==> PicksResolving(aging, init + [last], ou, confirmed + [last], at + [|init|])
  {
    hide Lookup;
    assert forall i: nat :: i < |init| ==> (init + [last])[i] == init[i];
    assert |init| in at + [|init|] && forall i :: i in at ==> i in at + [|init|];
  }

  lemma {:induction false} ConfirmPicks(aging: seq<AgingInvoice>, numbers: seq<string>, ou: string) returns (at: seq<nat>)
    ensures PicksResolving(aging, numbers, ou, Confirm(aging, numbers, ou), at)
  {
    if numbers == [] {
      at := [];
    } else {
      var init, last := numbers[..|numbers| - 1], numbers[|numbers| - 1];
      hide Lookup, PicksResolving;
      assert numbers == init + [last];
      at := ConfirmPicks(aging, init, ou);
      PicksSnoc(aging, init, last, ou, Confirm(aging, init, ou), at);
      if Lookup(aging, last, ou).Some? {
        at := at + [|init|];
      } else {
        assert Confirm(aging, init, ou) + [] == Confirm(aging, init, ou);
      }
    }
  }

  /** Some number of the list resolves. */
  predicate SomeResolves(aging: seq<AgingInvoice>, numbers: seq<string>, ou: string) {
    exists i :: 0 <= i < |numbers| && Lookup(aging, numbers[i], ou).Some?
  }

  // ---- one row and its answer --------------------------------------------------------------------

  /** The answer the job has for row i: the last element of the batch that claims it, or its own single answer. */
  predicate IsAnswer(reply: JobReply, i: nat, answer: Option<Reply>) {
    match reply.batch
    case Some(items) =>
      if answer.None? then forall k :: 0 <= k < |items| ==> !(items[k].Item? && items[k].index == i)
      else exists k :: 0 <= k < |items| && items[k] == Item(i, answer.value)
                       && forall j :: k < j < |items| ==> !(items[j].Item? && items[j].index == i)
    case None => answer == if i < |reply.singles| then reply.singles[i] else None
  }

  lemma AnswerIs(reply: JobReply, i: nat)
    ensures IsAnswer(reply, i, AnswerFor(reply, i))
  {
    if reply.batch.Some? {
      var items := reply.batch.value;
      LastItemMeaning(items, i);
      hide LastItem;
      var r := LastItem(items, i);
      if r.Some? {
        var k :| 0 <= k < |items| && items[k] == Item(i, r.value) && forall j :: k < j < |items| ==> !Claims(items[j], i);
        assert forall j :: k < j < |items| ==> !Claims(items[j], i);
      } else {
        assert forall k :: 0 <= k < |items| ==> !Claims(items[k], i);
      }
    }
  }

  /** The customer an answer names, confirmed in the row's unit if it claims to be listed there, else anywhere. */
  function NamedCustomer(ctx: Context, ou: string, reply: Reply): Option<string>
    requires reply.Reply?
  {
    if reply.customer == "" then None
    else if !reply.inOuList || ou == "" then ctx.customerAnywhere(reply.customer)
    else ctx.customerInOu(reply.customer, ou)
  }

  function Trimmed(numbers: seq<string>): (r: seq<string>)
    ensures |r| == |numbers|
  {
    seq(|numbers|, i requires 0 <= i < |numbers| => Strip(numbers[i]))
  }

  /** The payment says what the answer says, as far as the aging rows confirm it. */
  ghost predicate MadeOf(ctx: Context, row: Layer2ARow, reply: Reply, p: Payment) {
    && reply.Reply? && p.original == row.original
    && var numbers, customer := Trimmed(reply.invoices), NamedCustomer(ctx, row.original.ou, reply);
       && (p.Identified? <==> SomeResolves(ctx.aging, numbers, row.original.ou) || customer.Some?)
       && (p.Identified? ==>
             && (exists at :: PicksResolving(ctx.aging, numbers, row.original.ou, p.confirmed, at))
             && p.customer == if customer.Some? then customer else row.customer)
       && (p.Unknown? ==> p.aiAttempted)
  }

  lemma {:induction false} StripAllTrims(numbers: seq<string>)
    ensures StripAll(numbers) == Trimmed(numbers)
  {
    if numbers != [] { StripAllTrims(numbers[1..]); }
  }

  lemma SomeConfirmed(aging: seq<AgingInvoice>, numbers: seq<string>, ou: string)
    ensures Confirm(aging, numbers, ou) != [] <==> SomeResolves(aging, numbers, ou)
    ensures exists at :: PicksResolving(aging, numbers, ou, Confirm(aging, numbers, ou), at)
  {
    ConfirmMeaning(aging, numbers, ou);
    var at := ConfirmPicks(aging, numbers, ou);
    hide Confirm, Lookup, PicksResolving;
  }

  lemma ClassifyMadeOf(ctx: Context, row: Layer2ARow, reply: Reply)
    requires reply.Reply?
    ensures ClassifyRow(ctx, row, Some(reply)).Some? && MadeOf(ctx, row, reply, ClassifyRow(ctx, row, Some(reply)).value)
  {
    StripAllTrims(reply.invoices);
    assert ConfirmCustomer(ctx, row.original.ou, reply) == NamedCustomer(ctx, row.original.ou, reply);
    SomeConfirmed(ctx.aging, Trimmed(reply.invoices), row.original.ou);
    hide StripAll, Trimmed, Confirm, Lookup, PicksResolving, SomeResolves, NamedCustomer, ConfirmCustomer;
  }

  /** The payment a row gets from its job: made of its answer, or unknown without one. */
  ghost predicate Answers(ctx: Context, row: Layer2ARow, reply: JobReply, i: nat, p: Payment) {
    exists answer :: IsAnswer(reply, i, answer)
      && if answer.None? then p == Unknown(row.original, true) else MadeOf(ctx, row, answer.value, p)
  }

  /** A job that does not raise gives each of its rows the payment its own answer makes. */
  lemma {:induction false} JobAnswers(ctx: Context, rows: seq<Layer2ARow>, reply: JobReply, n: nat, i: nat)
    requires i < n <= |rows|
    ensures var ps := JobPayments(ctx, rows, reply, n);
            ps.Some? ==> |ps.value| == n && Answers(ctx, rows[i], reply, i, ps.value[i])
  {
    JobLength(ctx, rows, reply, n);
    hide IsAnswer, AnswerFor, MadeOf, Overflows;
    if JobPayments(ctx, rows, reply, n).Some? {
      if i < n - 1 {
        JobLength(ctx, rows, reply, n - 1);
        JobAnswers(ctx, rows, reply, n - 1, i);
        hide ClassifyRow;
      } else {
        JobLength(ctx, rows, reply, n - 1);
        AnswerIs(reply, i);
        var answer := AnswerFor(reply, i);
        if answer.Some? && answer.value.Reply? {
          ClassifyMadeOf(ctx, rows[i], answer.value);
        }
      }
    }
  }

  lemma {:induction false} JobLength(ctx: Context, rows: seq<Layer2ARow>, reply: JobReply, n: nat)
    requires n <= |rows|
    ensures var ps := JobPayments(ctx, rows, reply, n); ps.Some? ==> |ps.value| == n
  {
    hide ClassifyRow, AnswerFor, Overflows;
    if n > 0 { JobLength(ctx, rows, reply, n - 1); }
  }

  lemma AnswerIsUnique(reply: JobReply, i: nat, a: Option<Reply>, b: Option<Reply>)
    requires IsAnswer(reply, i, a) && IsAnswer(reply, i, b)
    ensures a == b
  {
  }

  /** A job raises exactly if the index of some element of its batch overflows or the fields of some row's answer are unusable. */
  lemma JobRaisesExactly(ctx: Context, rows: seq<Layer2ARow>, reply: JobReply)
    ensures JobPayments(ctx, rows, reply, |rows|).None? <==>
              || (reply.batch.Some? && Overflowing in reply.batch.value)
              || exists i: nat :: i < |rows| && IsAnswer(reply, i, Some(Malformed))
  {
    JobPaymentsMeaning(ctx, rows, reply, |rows|);
    hide IsAnswer, AnswerFor, JobPayments;
    forall i: nat | i < |rows| ensures AnswerFor(reply, i) == Some(Malformed) <==> IsAnswer(reply, i, Some(Malformed)) {
      AnswerIs(reply, i);
      if IsAnswer(reply, i, Some(Malformed)) {
        AnswerIsUnique(reply, i, AnswerFor(reply, i), Some(Malformed));
      }
    }
  }

  /** Rows share a job only if their units are the same but for white space; no unit counts as "UNKNOWN_OU". */
  lemma JobsKeepUnitsApart(rows: seq<Layer2ARow>, size: nat, job: seq<Layer2ARow>, a: Layer2ARow, b: Layer2ARow)
    requires size >= 1 && job in JobsOf(rows, size) && a in job && b in job
    ensures Strip(a.original.ou) == Strip(b.original.ou)
         || (Strip(a.original.ou) in {"", "UNKNOWN_OU"} && Strip(b.original.ou) in {"", "UNKNOWN_OU"})
  {
    hide JobsOf, Strip;
    JobsMeaning(rows, size);
    assert GroupKey(a) == GroupKey(b);
  }

  // ---- one row in the result of its chunk ----------------------------------------------------------

  lemma {:induction false} MapMember<A, B>(f: A -> B, xs: seq<A>, x: A)
    requires x in xs
    ensures f(x) in Map(f, xs)
  {
    if x != xs[0] { MapMember(f, xs[1..], x); }
  }

  lemma {:induction false} FlattenMember<T>(xss: seq<seq<T>>, j: nat, x: T)
    requires j < |xss| && x in xss[j]
    ensures x in Flatten(xss)
  {
    if j > 0 { FlattenMember(xss[1..], j - 1, x); }
  }

  lemma {:induction false} FlattenFinds<T>(xss: seq<seq<T>>, x: T) returns (j: nat)
    requires x in Flatten(xss)
    ensures j < |xss| && x in xss[j]
  {
    if x in xss[0] {
      j := 0;
    } else {
      j := FlattenFinds(xss[1..], x);
      j := j + 1;
    }
  }

  lemma {:induction false} NotFoundRow(ctx: Context, rows: seq<CreditRow>, row: CreditRow)
    requires row in rows && Annotate(ctx, row).confirmed == []
    ensures Annotate(ctx, row) in Split2A(ctx, rows, false)
  {
    hide Confirm;
    var init := rows[..|rows| - 1];
    SplitLast(rows);
    if row in init {
      NotFoundRow(ctx, init, row);
    }
  }

  lemma {:induction false} PickMember(rows: seq<Layer2ARow>, row: Layer2ARow)
    requires row in rows
    ensures row in Pick(rows, NoNarrative(row))
    ensures NoNarrative(row) ==> Unknown(row.original, false) in Skipped(Pick(rows, true))
  {
    hide NoNarrative;
    var init, last := rows[..|rows| - 1], rows[|rows| - 1];
    SplitLast(rows);
    PickSnoc(init, last);
    if row in init {
      PickMember(init, row);
    }
  }

  /** The row is paid as its own text says: its resolving candidates in order, and the customer found in it. */
  ghost predicate FoundAs(ctx: Context, row: CreditRow, p: Payment) {
    && p.Identified? && p.original == row && p.customer == ctx.scan(row).customer
    && exists at :: PicksResolving(ctx.aging, ctx.scan(row).candidates, row.ou, p.confirmed, at)
  }

  lemma FoundRowsPayment(ctx: Context, row: CreditRow)
    ensures Annotate(ctx, row).confirmed != [] <==> SomeResolves(ctx.aging, ctx.scan(row).candidates, row.ou)
    ensures FoundAs(ctx, row, FoundPayment(Annotate(ctx, row)))
    ensures Annotate(ctx, row).original == row && Annotate(ctx, row).customer == ctx.scan(row).customer
  {
    SomeConfirmed(ctx.aging, ctx.scan(row).candidates, row.ou);
    hide Confirm, SomeResolves, PicksResolving;
  }

  /** A row whose text has a resolving candidate is identified by it in the result of its chunk. */
  lemma FoundFate(ctx: Context, chunk: seq<CreditRow>, size: nat, replies: Replies, c: nat, total: nat, e: ExtractionResult,
                  row: CreditRow)
    requires size >= 1 && row in chunk && IsChunkResult(ctx, chunk, size, replies, c, total, e)
    requires SomeResolves(ctx.aging, ctx.scan(row).candidates, row.ou)
    ensures exists p :: p in e.identified && FoundAs(ctx, row, p)
  {
    FoundRowsPayment(ctx, row);
    var found := Split2A(ctx, chunk, true);
    FoundRow(ctx, chunk, row);
    MapMember(FoundPayment, found, Annotate(ctx, row));
    var p := FoundPayment(Annotate(ctx, row));
    hide Split2A, Annotate, Map, ChunkPayments, FoundAs, SomeResolves, FoundPayment;
    assert p in e.identified[..e.hits2a];
  }

  /** A narrative that is blank or spells a missing value, in any case. */
  predicate SaysNothing(narrative: string) {
    Upper(Strip(narrative)) in {"", "NAN", "NONE"}
  }

  lemma NoNarrativeSaysNothing(row: Layer2ARow)
    ensures NoNarrative(row) <==> SaysNothing(row.original.narrative)
  {
    hide Strip;
  }

  /** The job and the place in it that row r got, and the payment it got there, if the job did not raise. */
  ghost predicate AnsweredIn(ctx: Context, jobs: seq<seq<Layer2ARow>>, replies: Replies, c: nat, e: ExtractionResult,
                             r: Layer2ARow, j: nat, i: nat)
  {
    && j < |jobs| && i < |jobs[j]| && jobs[j][i] == r
    && (JobPayments(ctx, jobs[j], replies(c, j), |jobs[j]|).Some? ==>
          exists p :: p in e.identified + e.unknown && Answers(ctx, r, replies(c, j), i, p))
  }

  lemma InResult(ctx: Context, chunk: seq<CreditRow>, size: nat, replies: Replies, c: nat, total: nat, e: ExtractionResult, p: Payment)
    requires size >= 1 && IsChunkResult(ctx, chunk, size, replies, c, total, e)
    requires p in Layer2BPayments(ctx, Split2A(ctx, chunk, false), size, replies, c)
    ensures p in e.identified + e.unknown && (p.Unknown? ==> p in e.unknown)
  {
    hide Split2A, Layer2BPayments, Map;
    assert p in ChunkPayments(ctx, chunk, size, replies, c);
    assert p in multiset(e.identified) + multiset(e.unknown);
  }

  /** A row without a resolving candidate and without a narrative is unknown, and never sent to the AI. */
  lemma IdleFate(ctx: Context, chunk: seq<CreditRow>, size: nat, replies: Replies, c: nat, total: nat, e: ExtractionResult,
                 row: CreditRow)
    requires size >= 1 && row in chunk && IsChunkResult(ctx, chunk, size, replies, c, total, e)
    requires !SomeResolves(ctx.aging, ctx.scan(row).candidates, row.ou) && SaysNothing(row.narrative)
    ensures Unknown(row, false) in e.unknown
  {
    FoundRowsPayment(ctx, row);
    NotFoundRow(ctx, chunk, row);
    hide Annotate;
    NoNarrativeSaysNothing(Annotate(ctx, row));
    PickMember(Split2A(ctx, chunk, false), Annotate(ctx, row));
    hide *;
    Layer2BUnfold(ctx, Split2A(ctx, chunk, false), size, replies, c);
    InResult(ctx, chunk, size, replies, c, total, e, Unknown(row, false));
  }

  /** Every other row is in a job, and gets the payment its own answer there makes unless that job raises. */
  lemma AnsweredFate(ctx: Context, chunk: seq<CreditRow>, size: nat, replies: Replies, c: nat, total: nat, e: ExtractionResult,
                     row: CreditRow) returns (j: nat, i: nat)
    requires size >= 1 && row in chunk && IsChunkResult(ctx, chunk, size, replies, c, total, e)
    requires !SomeResolves(ctx.aging, ctx.scan(row).candidates, row.ou) && !SaysNothing(row.narrative)
    ensures AnsweredIn(ctx, JobsOf(Pick(Split2A(ctx, chunk, false), false), size), replies, c, e, Annotate(ctx, row), j, i)
  {
    FoundRowsPayment(ctx, row);
    NotFoundRow(ctx, chunk, row);
    hide Annotate;
    var r, rows := Annotate(ctx, row), Split2A(ctx, chunk, false);
    NoNarrativeSaysNothing(r);
    PickMember(rows, r);
    hide *;
    var jobs := JobsOf(Pick(rows, false), size);
    JobsMeaning(Pick(rows, false), size);
    assert r in multiset(Flatten(jobs));
    j := FlattenFinds(jobs, r);
    i :| 0 <= i < |jobs[j]| && jobs[j][i] == r;
    JobPays(ctx, jobs, replies, c, j, i);
    Layer2BUnfold(ctx, rows, size, replies, c);
    if JobPayments(ctx, jobs[j], replies(c, j), |jobs[j]|).Some? {
      InResult(ctx, chunk, size, replies, c, total, e, JobPayments(ctx, jobs[j], replies(c, j), |jobs[j]|).value[i]);
    }
    assert AnsweredIn(ctx, jobs, replies, c, e, r, j, i) by { AnsweredUnfold(ctx, jobs, replies, c, e, r, j, i); }
  }

  lemma JobPays(ctx: Context, jobs: seq<seq<Layer2ARow>>, replies: Replies, c: nat, j: nat, i: nat)
    requires j < |jobs| && i < |jobs[j]|
    ensures var ps := JobPayments(ctx, jobs[j], replies(c, j), |jobs[j]|);
            ps.Some? ==>
              && |ps.value| == |jobs[j]| && Answers(ctx, jobs[j][i], replies(c, j), i, ps.value[i])
              && ps.value[i] in Flatten(Delivered(ctx, jobs, replies, c))
  {
    hide JobPayments, Answers, Flatten;
    JobAnswers(ctx, jobs[j], replies(c, j), |jobs[j]|, i);
    if JobPayments(ctx, jobs[j], replies(c, j), |jobs[j]|).Some? {
      FlattenMember(Delivered(ctx, jobs, replies, c), j, JobPayments(ctx, jobs[j], replies(c, j), |jobs[j]|).value[i]);
    }
  }

  lemma AnsweredUnfold(ctx: Context, jobs: seq<seq<Layer2ARow>>, replies: Replies, c: nat, e: ExtractionResult,
                       r: Layer2ARow, j: nat, i: nat)
    requires j < |jobs| && i < |jobs[j]| && jobs[j][i] == r
    requires var ps := JobPayments(ctx, jobs[j], replies(c, j), |jobs[j]|);
             ps.Some? ==> i < |ps.value| && ps.value[i] in e.identified + e.unknown && Answers(ctx, r, replies(c, j), i, ps.value[i])
    ensures AnsweredIn(ctx, jobs, replies, c, e, r, j, i)
  {
    hide JobPayments, Answers;
  }

  /**
   From broken text to payment: a number of the row's unit, however broken by blanks and line
   breaks, that stands in a clear context and resolves, ends up among the confirmed numbers of
   that row's identified payment in the result of its chunk.
   */
  lemma BrokenNumberReachesPayment(ctx: Context, chunk: seq<CreditRow>, size: nat, replies: Replies, c: nat, total: nat,
                                   e: ExtractionResult, row: CreditRow, left: string, w: string, right: string)
    requires size >= 1 && row in chunk && IsChunkResult(ctx, chunk, size, replies, c, total, e)
    requires row.ou != "" && InvoiceScan.IsScanOf(TextParts(row), row.ou, ctx.scan(row).candidates)
    requires Join(" ", InvoiceScan.NonEmpty([row.narrative, row.bankReference, row.customerReference])) == left + w + right
    requires InvoiceScan.IsBroken(w) && InvoiceScan.IsInvoiceOf(InvoiceScan.OnlyDigits(w), row.ou)
    requires InvoiceScan.ClearBefore(left) && InvoiceScan.ClearAfter(right)
    requires Lookup(ctx.aging, InvoiceScan.OnlyDigits(w), row.ou).Some?
    ensures exists p :: p in e.identified && FoundAs(ctx, row, p) && InvoiceScan.OnlyDigits(w) in p.confirmed
  {
    var n, candidates := InvoiceScan.OnlyDigits(w), ctx.scan(row).candidates;
    assert [row.narrative, row.bankReference, row.customerReference] == TextParts(row);
    hide *;
    InvoiceScan.RowNumberIsFound(TextParts(row), left, w, right, row.ou);
    ScanHolds(ctx, row, n);
    var i :| 0 <= i < |candidates| && candidates[i] == n;
    SomeHere(ctx.aging, candidates, row.ou, i);
    FoundFate(ctx, chunk, size, replies, c, total, e, row);
    var p :| p in e.identified && FoundAs(ctx, row, p);
    FoundHolds(ctx, row, p, i);
  }

  lemma ScanHolds(ctx: Context, row: CreditRow, n: string)
    requires InvoiceScan.IsScanOf(TextParts(row), row.ou, ctx.scan(row).candidates)
    requires n in InvoiceScan.OuScan(InvoiceScan.RowText(TextParts(row)), row.ou)
    ensures n in ctx.scan(row).candidates
  {
    hide InvoiceScan.OuScan, InvoiceScan.RowText, TextParts;
  }

  lemma SomeHere(aging: seq<AgingInvoice>, numbers: seq<string>, ou: string, i: nat)
    requires i < |numbers| && Lookup(aging, numbers[i], ou).Some?
    ensures SomeResolves(aging, numbers, ou)
  {
    hide Lookup;
  }

  lemma FoundHolds(ctx: Context, row: CreditRow, p: Payment, i: nat)
    requires FoundAs(ctx, row, p) && i < |ctx.scan(row).candidates|
    requires Lookup(ctx.aging, ctx.scan(row).candidates[i], row.ou).Some?
    ensures ctx.scan(row).candidates[i] in p.confirmed
  {
    hide Lookup;
    var at :| PicksResolving(ctx.aging, ctx.scan(row).candidates, row.ou, p.confirmed, at);
    assert i in at;
    var k :| 0 <= k < |at| && at[k] == i;
    assert p.confirmed[k] == ctx.scan(row).candidates[i];
  }
}
