/**
 Layer 2B: validating AI answers against the aging rows, batch by batch, with threads
 completing in any order and jobs that raise dropping their rows.
 */
module AiFallback {
  import opened Core
  import opened Text
  import opened AgingMap
  import opened Batching
  import opened Extraction

  // ---- layer 2B: validating and classifying one row ----------------------------------------------------

  function StripAll(numbers: seq<string>): seq<string> {
    if numbers == [] then [] else [Strip(numbers[0])] + StripAll(numbers[1..])
  }

  /** The customer the AI named, as confirmed by a fuzzy search in the unit or, failing that claim, anywhere. */
  function ConfirmCustomer(ctx: Context, ou: string, reply: Reply): Option<string>
    requires reply.Reply?
  {
    if reply.customer == "" then None
    else if reply.inOuList && ou != "" then ctx.customerInOu(reply.customer, ou)
    else ctx.customerAnywhere(reply.customer)
  }

  /** The payment made of one row and its answer; None if using the answer raises. */
  function ClassifyRow(ctx: Context, row: Layer2ARow, answer: Option<Reply>): Option<Payment> {
    match answer
    case None => Some(Unknown(row.original, true))
    case Some(Malformed) => None
    case Some(Reply(invoices, customer, inOuList)) =>
      var confirmed := Confirm(ctx.aging, StripAll(invoices), row.original.ou);
      var confirmedCustomer := ConfirmCustomer(ctx, row.original.ou, answer.value);
      if confirmed != [] || confirmedCustomer.Some? then
        Some(Identified(row.original, confirmed, if confirmedCustomer.Some? then confirmedCustomer else row.customer))
      else Some(Unknown(row.original, true))
  }

  /**
   Whatever is answered: the payment is the row's own; it is identified exactly when some
   number in the answer resolves or a customer is confirmed; and the numbers confirmed are
   exactly those of the answer that resolve.
   */
  lemma ClassifyMeaning(ctx: Context, row: Layer2ARow, answer: Option<Reply>)
    ensures var p := ClassifyRow(ctx, row, answer);
            && (p.None? <==> answer == Some(Malformed))
            && (p.Some? ==> p.value.original == row.original && Sound(ctx.aging, p.value))
            && (answer.None? ==> p == Some(Unknown(row.original, true)))
    ensures answer.Some? && answer.value.Reply? ==>
              var p := ClassifyRow(ctx, row, answer).value;
              var numbers, ou := StripAll(answer.value.invoices), row.original.ou;
              var customer := ConfirmCustomer(ctx, ou, answer.value);
              && (p.Unknown? <==> NoneResolves(ctx.aging, numbers, ou) && customer.None?)
              && (p.Identified? ==> forall n :: n in p.confirmed <==> n in numbers && Lookup(ctx.aging, n, ou).Some?)
              && (p.Identified? ==> p.customer == if customer.Some? then customer else row.customer)
  {
    if answer.Some? && answer.value.Reply? {
      var numbers, ou := StripAll(answer.value.invoices), row.original.ou;
      ConfirmMeaning(ctx.aging, numbers, ou);
      forall n ensures n in Confirm(ctx.aging, numbers, ou) <==> n in numbers && Lookup(ctx.aging, n, ou).Some? {
        ConfirmExactly(ctx.aging, numbers, ou, n);
      }
    }
    hide Confirm, StripAll, ConfirmCustomer, AllResolve, NoneResolves, Lookup;
  }

  predicate Sound(aging: seq<AgingInvoice>, p: Payment) {
    p.Identified? ==> AllResolve(aging, p.confirmed, p.original.ou)
  }

  // ---- layer 2B: one batch -------------------------------------------------------------------------------

  /** The last element of the answer that claims row i. */
  function LastItem(items: seq<AiItem>, i: int): Option<Reply> {
    if items == [] then None
    else
      var last := items[|items| - 1];
      if last.Item? && last.index == i then Some(last.reply) else LastItem(items[..|items| - 1], i)
  }

  predicate Claims(item: AiItem, i: int) { item.Item? && item.index == i }

  predicate ClaimedOnce(items: seq<AiItem>, i: int) {
    forall j, k :: 0 <= j < k < |items| ==> !(Claims(items[j], i) && Claims(items[k], i))
  }

  /** The answer is the last claim: nothing after it claims the row, and no claim means no answer. */
  lemma {:induction false} LastItemMeaning(items: seq<AiItem>, i: int)
    ensures var r := LastItem(items, i);
            if r.None? then forall k :: 0 <= k < |items| ==> !Claims(items[k], i)
            else exists k :: 0 <= k < |items| && items[k] == Item(i, r.value)
                             && forall j :: k < j < |items| ==> !Claims(items[j], i)
  {
    if items != [] {
      var n := |items| - 1;
      if Claims(items[n], i) {
        assert items[n] == Item(i, items[n].reply);
      } else {
        LastItemMeaning(items[..n], i);
        if LastItem(items[..n], i).Some? {
          var r := LastItem(items[..n], i).value;
          var k :| 0 <= k < n && items[..n][k] == Item(i, r) && forall j :: k < j < n ==> !Claims(items[..n][j], i);
          assert items[k] == Item(i, r);
          assert forall j :: k < j < n ==> items[j] == items[..n][j];
        } else {
          assert forall j :: 0 <= j < n ==> items[j] == items[..n][j];
        }
      }
    }
  }

  /** A row claimed once gets that claim's answer, wherever it stands. */
  lemma ClaimIsAnswer(items: seq<AiItem>, i: int, k: nat)
    requires k < |items| && Claims(items[k], i) && ClaimedOnce(items, i)
    ensures LastItem(items, i) == Some(items[k].reply)
  {
    hide LastItem;
    LastItemMeaning(items, i);
    assert LastItem(items, i).Some?;
    var j :| 0 <= j < |items| && items[j] == Item(i, LastItem(items, i).value);
    assert j == k by {
      assert Claims(items[j], i);
    }
  }

  lemma AnswerMoves(items: seq<AiItem>, other: seq<AiItem>, i: int)
    requires multiset(items) == multiset(other) && ClaimedOnce(other, i) && LastItem(items, i).Some?
    ensures LastItem(other, i) == LastItem(items, i)
  {
    hide LastItem, ClaimedOnce;
    LastItemMeaning(items, i);
    var item := Item(i, LastItem(items, i).value);
    assert item in multiset(other) by { assert item in items; }
    var k :| 0 <= k < |other| && other[k] == item;
    ClaimIsAnswer(other, i, k);
  }

  /** The order of the answer is irrelevant, as long as no row is claimed twice. */
  lemma ReplyOrderIrrelevant(items: seq<AiItem>, other: seq<AiItem>, i: int)
    requires multiset(items) == multiset(other) && ClaimedOnce(items, i) && ClaimedOnce(other, i)
    ensures LastItem(items, i) == LastItem(other, i)
  {
    hide LastItem, ClaimedOnce;
    if LastItem(items, i).Some? {
      AnswerMoves(items, other, i);
    } else if LastItem(other, i).Some? {
      AnswerMoves(other, items, i);
    }
  }

  /** What the job has to go on for row i: the batch answer, or its own single answer. */
  function AnswerFor(reply: JobReply, i: nat): Option<Reply> {
    if reply.batch.Some? then LastItem(reply.batch.value, i)
    else if i < |reply.singles| then reply.singles[i]
    else None
  }

  /** An overflowing row_index makes the whole job raise before any row is looked at. */
  predicate Overflows(reply: JobReply) {
    reply.batch.Some? && Overflowing in reply.batch.value
  }

  /** The payments of the first n rows of a job, in row order; None once one of them, or the index, raises. */
  function JobPayments(ctx: Context, rows: seq<Layer2ARow>, reply: JobReply, n: nat): Option<seq<Payment>>
    requires n <= |rows|
  {
    if n == 0 then if Overflows(reply) then None else Some([])
    else
      var before := JobPayments(ctx, rows, reply, n - 1);
      var p := ClassifyRow(ctx, rows[n - 1], AnswerFor(reply, n - 1));
      if before.None? || p.None? then None else Some(before.value + [p.value])
  }

  /** Every row of a job that does not raise yields exactly one payment, carrying that row, whatever was answered. */
  lemma {:induction false} JobPaymentsMeaning(ctx: Context, rows: seq<Layer2ARow>, reply: JobReply, n: nat)
    requires n <= |rows|
    ensures var r := JobPayments(ctx, rows, reply, n);
            && (r.None? <==> Overflows(reply) || exists i: nat :: i < n && AnswerFor(reply, i) == Some(Malformed))
            && (r.Some? ==> Originals(r.value) == RowsOf(rows[..n]) && forall p :: p in r.value ==> Sound(ctx.aging, p))
  {
    hide Sound, ClassifyRow, AnswerFor, Overflows;
    if n == 0 {
    } else {
      JobPaymentsMeaning(ctx, rows, reply, n - 1);
      var row := rows[n - 1];
      ClassifyMeaning(ctx, row, AnswerFor(reply, n - 1));
      var before := JobPayments(ctx, rows, reply, n - 1);
      var p := ClassifyRow(ctx, row, AnswerFor(reply, n - 1));
      if before.Some? && p.Some? {
        MapSnoc(PaymentRow, before.value, p.value);
        MapSnoc(AnnotatedRow, rows[..n - 1], row);
        assert rows[..n] == rows[..n - 1] + [row];
      }
    }
  }

  function OfKind(ps: seq<Payment>, identified: bool): seq<Payment> {
    if ps == [] then []
    else
      var init, last := ps[..|ps| - 1], ps[|ps| - 1];
      OfKind(init, identified) + if last.Identified? == identified then [last] else []
  }

  lemma {:induction false} OfKindMeaning(ps: seq<Payment>)
    ensures multiset(OfKind(ps, true) + OfKind(ps, false)) == multiset(ps)
    ensures forall kind, p :: p in OfKind(ps, kind) ==> p.Identified? == kind
  {
    if ps != [] {
      OfKindMeaning(ps[..|ps| - 1]);
      SplitLast(ps);
    }
  }

  function JobResultOf(ctx: Context, rows: seq<Layer2ARow>, reply: JobReply): JobResult {
    var ps := JobPayments(ctx, rows, reply, |rows|);
    if ps.None? then Raised else Completed(OfKind(ps.value, true), OfKind(ps.value, false))
  }

  /** The dictionary of answers by claimed row, later elements replacing earlier ones. */
  method IndexReplies(items: seq<AiItem>) returns (byIndex: Option<map<int, Reply>>)
    ensures byIndex.None? <==> Overflowing in items
    ensures byIndex.Some? ==> forall i :: (i in byIndex.value <==> LastItem(items, i).Some?)
                                          && (i in byIndex.value ==> LastItem(items, i) == Some(byIndex.value[i]))
  {
    var index: map<int, Reply> := map[];
    for k := 0 to |items|
      invariant Overflowing !in items[..k]
      invariant forall i :: (i in index <==> LastItem(items[..k], i).Some?)
                            && (i in index ==> LastItem(items[..k], i) == Some(index[i]))
    {
      assert items[..k + 1][..k] == items[..k];
      match items[k]
      case Junk =>
      case Overflowing => return None;
      case Item(claimed, reply) => index := index[claimed := reply];
    }
    assert items[..|items|] == items;
    return Some(index);
  }

  method ProcessBatch(ctx: Context, rows: seq<Layer2ARow>, reply: JobReply) returns (result: JobResult)
    ensures result == JobResultOf(ctx, rows, reply)
  {
    hide ClassifyRow, LastItem;
    var byIndex: map<int, Reply> := map[];
    if reply.batch.Some? {
      var index := IndexReplies(reply.batch.value);
      if index.None? {
        RaisesForGood(ctx, rows, reply, 0, |rows|);
        return Raised;
      }
      byIndex := index.value;
    }
    var identified, unknown := [], [];
    ghost var done: seq<Payment> := [];
    for i := 0 to |rows|
      invariant JobPayments(ctx, rows, reply, i) == Some(done)
      invariant identified == OfKind(done, true) && unknown == OfKind(done, false)
    {
      var answer: Option<Reply>;
      if reply.batch.Some? {
        answer := if i in byIndex then Some(byIndex[i]) else None;
      } else {
        answer := if i < |reply.singles| then reply.singles[i] else None;
      }
      assert answer == AnswerFor(reply, i);
      var p := ClassifyRow(ctx, rows[i], answer);
      if p.None? {
        RaisesForGood(ctx, rows, reply, i + 1, |rows|);
        return Raised;
      }
      assert (done + [p.value])[..|done|] == done;
      done := done + [p.value];
      if p.value.Identified? {
        identified := identified + [p.value];
      } else {
        unknown := unknown + [p.value];
      }
    }
    return Completed(identified, unknown);
  }

  lemma {:induction false} RaisesForGood(ctx: Context, rows: seq<Layer2ARow>, reply: JobReply, m: nat, n: nat)
    requires m <= n <= |rows| && JobPayments(ctx, rows, reply, m).None?
    ensures JobPayments(ctx, rows, reply, n).None?
  {
    if m < n { RaisesForGood(ctx, rows, reply, m, n - 1); }
  }

  // ---- layer 2B: grouping into jobs ------------------------------------------------------------------------

  /** A narrative the AI cannot help with. */
  predicate NoNarrative(row: Layer2ARow) {
    var s := Strip(row.original.narrative);
    s == "" || Upper(s) == "NAN" || Upper(s) == "NONE"
  }

  /** The rows with, or without, a usable narrative. */
  function Pick(rows: seq<Layer2ARow>, idle: bool): seq<Layer2ARow> {
    if rows == [] then []
    else Pick(rows[..|rows| - 1], idle) + if NoNarrative(rows[|rows| - 1]) == idle then [rows[|rows| - 1]] else []
  }

  lemma {:induction false} PickMeaning(rows: seq<Layer2ARow>)
    ensures multiset(Pick(rows, true)) + multiset(Pick(rows, false)) == multiset(rows)
  {
    hide NoNarrative;
    if rows != [] {
      PickMeaning(rows[..|rows| - 1]);
      SplitLast(rows);
    }
  }

  lemma PickSnoc(rows: seq<Layer2ARow>, row: Layer2ARow)
    ensures var idle := NoNarrative(row);
            && Pick(rows + [row], idle) == Pick(rows, idle) + [row]
            && Pick(rows + [row], !idle) == Pick(rows, !idle)
            && Skipped(Pick(rows, true) + [row]) == Skipped(Pick(rows, true)) + [Unknown(row.original, false)]
  {
    hide NoNarrative;
    assert (rows + [row])[..|rows|] == rows;
    var picked := Pick(rows, true);
    assert (picked + [row])[..|picked|] == picked;
  }

  lemma PickNothing()
    ensures Pick([], true) == [] && Pick([], false) == [] && Skipped([]) == []
  {
  }

  /** The unknown payments of rows never sent to the AI. */
  function Skipped(rows: seq<Layer2ARow>): seq<Payment> {
    if rows == [] then [] else Skipped(rows[..|rows| - 1]) + [Unknown(rows[|rows| - 1].original, false)]
  }

  lemma {:induction false} SkippedMeaning(ctx: Context, rows: seq<Layer2ARow>)
    ensures Originals(Skipped(rows)) == RowsOf(rows)
    ensures forall p :: p in Skipped(rows) ==> p.Unknown? && Sound(ctx.aging, p)
  {
    if rows != [] {
      var init := rows[..|rows| - 1];
      SkippedMeaning(ctx, init);
      MapSnoc(PaymentRow, Skipped(init), Unknown(rows[|rows| - 1].original, false));
      MapSnoc(AnnotatedRow, init, rows[|rows| - 1]);
      SplitLast(rows);
      hide RowsOf, Originals;
    }
  }

  function GroupKey(row: Layer2ARow): string {
    var ou := Strip(row.original.ou);
    if ou == "" then "UNKNOWN_OU" else ou
  }

  /** The group keys in order of first appearance. */
  function Keys(rows: seq<Layer2ARow>): seq<string> {
    if rows == [] then []
    else
      var before, k := Keys(rows[..|rows| - 1]), GroupKey(rows[|rows| - 1]);
      if k in before then before else before + [k]
  }

  function Group(rows: seq<Layer2ARow>, k: string): seq<Layer2ARow> {
    if rows == [] then []
    else Group(rows[..|rows| - 1], k) + if GroupKey(rows[|rows| - 1]) == k then [rows[|rows| - 1]] else []
  }

  function JobsFor(rows: seq<Layer2ARow>, keys: seq<string>, size: nat): seq<seq<Layer2ARow>>
    requires size >= 1
  {
    if keys == [] then []
    else JobsFor(rows, keys[..|keys| - 1], size) + Batches(Group(rows, keys[|keys| - 1]), size)
  }

  /** The batch jobs of a chunk, one operating unit after the other. */
  function JobsOf(rows: seq<Layer2ARow>, size: nat): seq<seq<Layer2ARow>>
    requires size >= 1
  {
    JobsFor(rows, Keys(rows), size)
  }

  predicate Covers(keys: seq<string>, rows: seq<Layer2ARow>) {
    forall i :: 0 <= i < |rows| ==> GroupKey(rows[i]) in keys
  }

  lemma {:induction false} KeysMeaning(rows: seq<Layer2ARow>)
    ensures NoRepeats(Keys(rows)) && Covers(Keys(rows), rows)
  {
    if rows != [] {
      var init, row := rows[..|rows| - 1], rows[|rows| - 1];
      KeysMeaning(init);
      SplitLast(rows);
      GroupSnoc(init, row);
      CoversMore(Keys(init), init, row);
      hide Keys, GroupKey, Covers;
    }
  }

  lemma CoversMore(keys: seq<string>, rows: seq<Layer2ARow>, row: Layer2ARow)
    requires Covers(keys, rows)
    ensures GroupKey(row) in keys ==> Covers(keys, rows + [row])
    ensures Covers(keys + [GroupKey(row)], rows + [row])
  {
    hide GroupKey;
  }

  function SumGroups(rows: seq<Layer2ARow>, keys: seq<string>): multiset<Layer2ARow> {
    if keys == [] then multiset{}
    else SumGroups(rows, keys[..|keys| - 1]) + multiset(Group(rows, keys[|keys| - 1]))
  }

  lemma GroupGrows(init: seq<Layer2ARow>, row: Layer2ARow, k: string)
    ensures multiset(Group(init + [row], k)) == multiset(Group(init, k)) + if GroupKey(row) == k then multiset{row} else multiset{}
  {
    hide GroupKey;
    assert (init + [row])[..|init|] == init;
    assert Group(init + [row], k) == Group(init, k) + if GroupKey(row) == k then [row] else [];
  }

  /** One more row joins exactly one of the groups. */
  lemma {:induction false} SumGroupsGrow(init: seq<Layer2ARow>, row: Layer2ARow, keys: seq<string>)
    requires NoRepeats(keys)
    ensures SumGroups(init + [row], keys) ==
            SumGroups(init, keys) + if GroupKey(row) in keys then multiset{row} else multiset{}
  {
    hide Group, GroupKey;
    if keys != [] {
      var front, k := keys[..|keys| - 1], keys[|keys| - 1];
      SumGroupsGrow(init, row, front);
      GroupGrows(init, row, k);
      SplitLast(keys);
    }
  }

  lemma {:induction false} SumGroupsEmpty(keys: seq<string>)
    ensures SumGroups([], keys) == multiset{}
  {
    if keys != [] { SumGroupsEmpty(keys[..|keys| - 1]); }
  }

  lemma {:induction false} SumGroupsAll(rows: seq<Layer2ARow>, keys: seq<string>)
    requires NoRepeats(keys) && Covers(keys, rows)
    ensures SumGroups(rows, keys) == multiset(rows)
  {
    if rows == [] {
      SumGroupsEmpty(keys);
    } else {
      var init, row := rows[..|rows| - 1], rows[|rows| - 1];
      SumGroupsAll(init, keys);
      SumGroupsGrow(init, row, keys);
      SplitLast(rows);
      hide SumGroups, GroupKey;
    }
  }

  lemma {:induction false} JobsForMeaning(rows: seq<Layer2ARow>, keys: seq<string>, size: nat)
    requires size >= 1
    ensures multiset(Flatten(JobsFor(rows, keys, size))) == SumGroups(rows, keys)
  {
    if keys != [] {
      var front, k := keys[..|keys| - 1], keys[|keys| - 1];
      JobsForMeaning(rows, front, size);
      BatchesMeaning(Group(rows, k), size);
      FlattenConcat(JobsFor(rows, front, size), Batches(Group(rows, k), size));
      hide Flatten, Batches, Group;
    }
  }

  predicate OneUnit(job: seq<Layer2ARow>) {
    forall i, j :: 0 <= i < |job| && 0 <= j < |job| ==> GroupKey(job[i]) == GroupKey(job[j])
  }

  /** A row is in exactly one job; jobs are never empty or too long, and never mix operating units. */
  lemma JobsMeaning(rows: seq<Layer2ARow>, size: nat)
    requires size >= 1
    ensures multiset(Flatten(JobsOf(rows, size))) == multiset(rows)
    ensures forall job :: job in JobsOf(rows, size) ==> 1 <= |job| <= size && OneUnit(job)
  {
    hide Keys, JobsFor, NoRepeats, Covers, Flatten;
    var keys := Keys(rows);
    KeysMeaning(rows);
    JobsForMeaning(rows, keys, size);
    SumGroupsAll(rows, keys);
    JobsForUnits(rows, keys, size);
  }

  lemma {:induction false} JobsForUnits(rows: seq<Layer2ARow>, keys: seq<string>, size: nat)
    requires size >= 1
    ensures forall job :: job in JobsFor(rows, keys, size) ==> 1 <= |job| <= size && OneUnit(job)
  {
    if keys != [] {
      var k := keys[|keys| - 1];
      JobsForUnits(rows, keys[..|keys| - 1], size);
      BatchesMeaning(Group(rows, k), size);
      GroupMembers(rows, k);
      BatchMembers(Group(rows, k), size, k);
      hide Batches, Group, OneUnit;
    }
  }

  lemma {:induction false} GroupMembers(rows: seq<Layer2ARow>, k: string)
    ensures forall i :: 0 <= i < |Group(rows, k)| ==> GroupKey(Group(rows, k)[i]) == k
  {
    hide GroupKey;
    if rows != [] { GroupMembers(rows[..|rows| - 1], k); }
  }

  lemma {:induction false} BatchMembers(rows: seq<Layer2ARow>, size: nat, k: string)
    requires size >= 1 && forall i :: 0 <= i < |rows| ==> GroupKey(rows[i]) == k
    ensures forall job :: job in Batches(rows, size) ==> OneUnit(job)
  {
    hide GroupKey;
    if |rows| > size { BatchMembers(rows[size..], size, k); }
  }

  lemma GroupSnoc(rows: seq<Layer2ARow>, row: Layer2ARow)
    ensures Keys(rows + [row]) == if GroupKey(row) in Keys(rows) then Keys(rows) else Keys(rows) + [GroupKey(row)]
    ensures forall k :: Group(rows + [row], k) == Group(rows, k) + if GroupKey(row) == k then [row] else []
  {
    hide GroupKey;
    assert (rows + [row])[..|rows|] == rows;
  }

  ghost predicate IsGrouping(rows: seq<Layer2ARow>, keys: seq<string>, groups: map<string, seq<Layer2ARow>>) {
    && keys == Keys(rows)
    && (forall k :: k in groups <==> k in keys)
    && (forall k :: Group(rows, k) == if k in groups then groups[k] else [])
  }

  lemma GroupStep(rows: seq<Layer2ARow>, row: Layer2ARow, keys: seq<string>, groups: map<string, seq<Layer2ARow>>)
    requires IsGrouping(rows, keys, groups)
    ensures var k := GroupKey(row);
            var before := if k in groups then groups[k] else [];
            IsGrouping(rows + [row], if k in groups then keys else keys + [k], groups[k := before + [row]])
  {
    GroupSnoc(rows, row);
    hide GroupKey, Group, Keys;
  }

  /** The dictionary of rows by operating unit, and its keys in insertion order. */
  method GroupByUnit(rows: seq<Layer2ARow>) returns (keys: seq<string>, groups: map<string, seq<Layer2ARow>>)
    ensures IsGrouping(rows, keys, groups)
  {
    keys, groups := [], map[];
    hide *;
    NoGroups();
    assert rows[..0] == [];
    for i := 0 to |rows|
      invariant IsGrouping(rows[..i], keys, groups)
    {
      var k := GroupKey(rows[i]);
      GroupStep(rows[..i], rows[i], keys, groups);
      assert rows[..i + 1] == rows[..i] + [rows[i]];
      if k !in groups {
        assert [] + [rows[i]] == [rows[i]];
        keys := keys + [k];
        groups := groups[k := [rows[i]]];
      } else {
        groups := groups[k := groups[k] + [rows[i]]];
      }
    }
    assert rows[..|rows|] == rows;
  }

  lemma NoGroups()
    ensures IsGrouping([], [], map[])
  {
  }

  method BuildJobs(rows: seq<Layer2ARow>, size: nat) returns (jobs: seq<seq<Layer2ARow>>)
    requires size >= 1
    ensures jobs == JobsOf(rows, size)
  {
    hide Group, Keys, Batches;
    var keys, groups := GroupByUnit(rows);
    jobs := [];
    for g := 0 to |keys|
      invariant jobs == JobsFor(rows, keys[..g], size)
    {
      assert keys[..g + 1][..g] == keys[..g];
      assert keys[g] in groups;
      var batches := Slice(groups[keys[g]], size);
      jobs := jobs + batches;
    }
    assert keys[..|keys|] == keys;
  }

  // ---- layer 2B: all jobs of a chunk --------------------------------------------------------------------------

  /** What a job adds to the results: its payments, or nothing if it raises. */
  function Delivers(ctx: Context, job: seq<Layer2ARow>, reply: JobReply): seq<Payment> {
    var ps := JobPayments(ctx, job, reply, |job|);
    if ps.None? then [] else ps.value
  }

  /** The replies are indexed by chunk and job. */
  type Replies = (nat, nat) -> JobReply

  function Delivered(ctx: Context, jobs: seq<seq<Layer2ARow>>, replies: Replies, chunk: nat): (r: seq<seq<Payment>>)
    ensures |r| == |jobs|
    ensures forall j: nat :: j < |jobs| ==> r[j] == Delivers(ctx, jobs[j], replies(chunk, j))
  {
    if jobs == [] then []
    else
      var n := |jobs| - 1;
      Delivered(ctx, jobs[..n], replies, chunk) + [Delivers(ctx, jobs[n], replies(chunk, n))]
  }

  /** The rows of the jobs that raise. */
  function Lost(ctx: Context, jobs: seq<seq<Layer2ARow>>, replies: Replies, chunk: nat): seq<CreditRow> {
    if jobs == [] then []
    else
      var n := |jobs| - 1;
      Lost(ctx, jobs[..n], replies, chunk)
      + if JobPayments(ctx, jobs[n], replies(chunk, n), |jobs[n]|).None? then RowsOf(jobs[n]) else []
  }

  /** Nothing in the answers to a job makes it raise. */
  ghost predicate Usable(reply: JobReply) {
    !Overflows(reply) && forall i: nat :: AnswerFor(reply, i) != Some(Malformed)
  }

  ghost predicate WellTyped(replies: Replies) {
    forall chunk: nat, job: nat :: Usable(replies(chunk, job))
  }

  lemma DeliversMeaning(ctx: Context, job: seq<Layer2ARow>, reply: JobReply)
    ensures var raised := JobPayments(ctx, job, reply, |job|).None?;
            && Originals(Delivers(ctx, job, reply)) == (if raised then [] else RowsOf(job))
            && (raised ==> !Usable(reply))
            && forall p :: p in Delivers(ctx, job, reply) ==> Sound(ctx.aging, p)
  {
    hide Sound, AnswerFor, RowsOf;
    JobPaymentsMeaning(ctx, job, reply, |job|);
    assert job[..|job|] == job;
  }

  /** Delivered payments and lost rows account for every row of every job. */
  lemma {:induction false} DeliveredMeaning(ctx: Context, jobs: seq<seq<Layer2ARow>>, replies: Replies, chunk: nat)
    ensures multiset(Originals(Flatten(Delivered(ctx, jobs, replies, chunk)))) + multiset(Lost(ctx, jobs, replies, chunk))
            == multiset(RowsOf(Flatten(jobs)))
    ensures WellTyped(replies) ==> Lost(ctx, jobs, replies, chunk) == []
  {
    hide Sound, AnswerFor, JobPayments, Delivers, Originals, RowsOf, Flatten;
    if jobs == [] {
      NothingDelivered(ctx, replies, chunk);
    } else {
      var n := |jobs| - 1;
      var init, job, reply := jobs[..n], jobs[n], replies(chunk, n);
      DeliveredMeaning(ctx, init, replies, chunk);
      DeliversMeaning(ctx, job, reply);
      var before, ps := Delivered(ctx, init, replies, chunk), Delivers(ctx, job, reply);
      var lost := if JobPayments(ctx, job, reply, |job|).None? then RowsOf(job) else [];
      assert Lost(ctx, jobs, replies, chunk) == Lost(ctx, init, replies, chunk) + lost;
      assert Delivered(ctx, jobs, replies, chunk) == before + [ps];
      assert WellTyped(replies) ==> lost == [];
      hide *;
      FlattenSnoc(before, ps);
      FlattenSnoc(init, job);
      SplitLast(jobs);
      OriginalsConcat(Flatten(before), ps);
      RowsOfConcat(Flatten(init), job);
      AddUp(Originals(Flatten(before)), Lost(ctx, init, replies, chunk), RowsOf(Flatten(init)),
            Originals(ps), lost, RowsOf(job));
    }
  }

  lemma NothingDelivered(ctx: Context, replies: Replies, chunk: nat)
    ensures Originals(Flatten(Delivered(ctx, [], replies, chunk))) == [] && Lost(ctx, [], replies, chunk) == []
    ensures RowsOf(Flatten([])) == []
  {
  }

  lemma OriginalsConcat(a: seq<Payment>, b: seq<Payment>)
    ensures Originals(a + b) == Originals(a) + Originals(b)
  {
    MapConcat(PaymentRow, a, b);
  }

  lemma RowsOfConcat(a: seq<Layer2ARow>, b: seq<Layer2ARow>)
    ensures RowsOf(a + b) == RowsOf(a) + RowsOf(b)
  {
    MapConcat(AnnotatedRow, a, b);
  }

  lemma {:induction false} DeliveredSound(ctx: Context, jobs: seq<seq<Layer2ARow>>, replies: Replies, chunk: nat)
    ensures forall p :: p in Flatten(Delivered(ctx, jobs, replies, chunk)) ==> Sound(ctx.aging, p)
  {
    if jobs != [] {
      var n := |jobs| - 1;
      DeliveredSound(ctx, jobs[..n], replies, chunk);
      DeliversMeaning(ctx, jobs[n], replies(chunk, n));
      FlattenSnoc(Delivered(ctx, jobs[..n], replies, chunk), Delivers(ctx, jobs[n], replies(chunk, n)));
      hide Sound, Delivers, Flatten;
    }
  }

  /** All payments of layer 2B with the jobs taken in order. */
  function Layer2BPayments(ctx: Context, rows: seq<Layer2ARow>, size: nat, replies: Replies, chunk: nat): seq<Payment>
    requires size >= 1
  {
    Skipped(Pick(rows, true)) + Flatten(Delivered(ctx, JobsOf(Pick(rows, false), size), replies, chunk))
  }

  function Layer2BLost(ctx: Context, rows: seq<Layer2ARow>, size: nat, replies: Replies, chunk: nat): seq<CreditRow>
    requires size >= 1
  {
    Lost(ctx, JobsOf(Pick(rows, false), size), replies, chunk)
  }

  /** Whatever is answered, each row ends in exactly one payment or in a job that raised. */
  lemma Layer2BConserves(ctx: Context, rows: seq<Layer2ARow>, size: nat, replies: Replies, chunk: nat)
    requires size >= 1
    ensures var ps := Layer2BPayments(ctx, rows, size, replies, chunk);
            var lost := Layer2BLost(ctx, rows, size, replies, chunk);
            && multiset(Originals(ps)) + multiset(lost) == multiset(RowsOf(rows))
            && (forall p :: p in ps ==> Sound(ctx.aging, p))
            && (WellTyped(replies) ==> lost == [])
  {
    hide *;
    var idle, busy := Pick(rows, true), Pick(rows, false);
    var jobs := JobsOf(busy, size);
    var ps, lost := Flatten(Delivered(ctx, jobs, replies, chunk)), Lost(ctx, jobs, replies, chunk);
    Layer2BUnfold(ctx, rows, size, replies, chunk);
    PickMeaning(rows);
    SkippedMeaning(ctx, idle);
    JobsMeaning(busy, size);
    DeliveredMeaning(ctx, jobs, replies, chunk);
    DeliveredSound(ctx, jobs, replies, chunk);
    OriginalsConcat(Skipped(idle), ps);
    RowsPermute(Flatten(jobs), busy);
    RowsPermute(idle + busy, rows);
    RowsOfConcat(idle, busy);
    AddUp(Originals(Skipped(idle)), [], RowsOf(idle), Originals(ps), lost, RowsOf(Flatten(jobs)));
    assert [] + lost == lost;
  }

  lemma Layer2BUnfold(ctx: Context, rows: seq<Layer2ARow>, size: nat, replies: Replies, chunk: nat)
    requires size >= 1
    ensures var jobs := JobsOf(Pick(rows, false), size);
            && Layer2BPayments(ctx, rows, size, replies, chunk)
               == Skipped(Pick(rows, true)) + Flatten(Delivered(ctx, jobs, replies, chunk))
            && Layer2BLost(ctx, rows, size, replies, chunk) == Lost(ctx, jobs, replies, chunk)
  {
  }

  lemma RowsPermute(a: seq<Layer2ARow>, b: seq<Layer2ARow>)
    requires multiset(a) == multiset(b)
    ensures multiset(RowsOf(a)) == multiset(RowsOf(b))
  {
    MapPermutes(AnnotatedRow, a, b);
  }

  /** Rows without a usable narrative become unknown at once. */
  method SkipIdle(rows: seq<Layer2ARow>) returns (unknown: seq<Payment>, eligible: seq<Layer2ARow>)
    ensures unknown == Skipped(Pick(rows, true)) && eligible == Pick(rows, false)
  {
    hide *;
    unknown, eligible := [], [];
    PickNothing();
    for i := 0 to |rows|
      invariant eligible == Pick(rows[..i], false)
      invariant unknown == Skipped(Pick(rows[..i], true))
    {
      PickSnoc(rows[..i], rows[i]);
      assert rows[..i + 1] == rows[..i] + [rows[i]];
      if NoNarrative(rows[i]) {
        unknown := unknown + [Unknown(rows[i].original, false)];
      } else {
        eligible := eligible + [rows[i]];
      }
    }
    assert rows[..|rows|] == rows;
  }

  /** Threads complete in any order: the next one is any that is still pending. */
  method CollectJobs(ctx: Context, jobs: seq<seq<Layer2ARow>>, replies: Replies, chunk: nat)
    returns (identified: seq<Payment>, unknown: seq<Payment>)
    ensures multiset(identified) + multiset(unknown) == multiset(Flatten(Delivered(ctx, jobs, replies, chunk)))
    ensures forall p :: p in identified ==> p.Identified?
    ensures forall p :: p in unknown ==> p.Unknown?
  {
    hide *;
    ghost var delivered := Delivered(ctx, jobs, replies, chunk);
    identified, unknown := [], [];
    var pending := Indices(|jobs|);
    ghost var done: set<nat> := {};
    TotalNone(delivered);
    while pending != {}
      invariant forall j: nat :: j < |jobs| <==> j in pending || j in done
      invariant pending !! done
      invariant multiset(identified) + multiset(unknown) == Total(delivered, done)
      invariant forall p :: p in identified ==> p.Identified?
      invariant forall p :: p in unknown ==> p.Unknown?
      decreases pending
    {
      var j :| j in pending;
      var result := ProcessBatch(ctx, jobs[j], replies(chunk, j));
      JobResultMeaning(ctx, jobs[j], replies(chunk, j));
      TotalAdd(delivered, done, j);
      if result.Completed? {
        identified := identified + result.identified;
        unknown := unknown + result.unknown;
      }
      pending := pending - {j};
      done := done + {j};
    }
    TotalAll(delivered, done);
  }

  method RunLayer2B(ctx: Context, rows: seq<Layer2ARow>, size: nat, replies: Replies, chunk: nat)
    returns (identified: seq<Payment>, unknown: seq<Payment>)
    requires size >= 1
    ensures multiset(identified) + multiset(unknown) == multiset(Layer2BPayments(ctx, rows, size, replies, chunk))
    ensures forall p :: p in identified ==> p.Identified?
    ensures forall p :: p in unknown ==> p.Unknown?
  {
    hide NoNarrative, JobsOf, Flatten, Pick, Sound;
    var skipped, eligible := SkipIdle(rows);
    SkippedMeaning(ctx, Pick(rows, true));
    var jobs := BuildJobs(eligible, size);
    var rest: seq<Payment>;
    identified, rest := CollectJobs(ctx, jobs, replies, chunk);
    unknown := skipped + rest;
  }

  lemma JobResultMeaning(ctx: Context, job: seq<Layer2ARow>, reply: JobReply)
    ensures match JobResultOf(ctx, job, reply)
            case Raised => Delivers(ctx, job, reply) == []
            case Completed(found, rest) =>
              && multiset(found) + multiset(rest) == multiset(Delivers(ctx, job, reply))
              && (forall p :: p in found ==> p.Identified?) && (forall p :: p in rest ==> p.Unknown?)
  {
    hide JobPayments;
    var ps := JobPayments(ctx, job, reply, |job|);
    if ps.Some? {
      OfKindMeaning(ps.value);
    }
  }
}
