/**
 A run's credit rows cut into chunks, each chunk taken through the regex pass, the AI pass
 and the merge, with chunks finishing in any order and failing ones replaced by an empty result.
 */
module ChunkProcessor {
  import opened Core
  import opened Rounding
  import opened AgingMap
  import opened Allocation
  import opened Evaluator
  import opened Batching
  import opened Extraction
  import opened AiFallback
  import AnalysisRuns

  // ---- the merge ------------------------------------------------------------------------------

  function FoundPayment(row: Layer2ARow): Payment { Identified(row.original, row.confirmed, row.customer) }

  function Merge(index: nat, total: nat, found: seq<Layer2ARow>, notFound: seq<Layer2ARow>,
                 identified2b: seq<Payment>, unknown: seq<Payment>): ExtractionResult
  {
    var from2a := Map(FoundPayment, found);
    ExtractionResult(index, total, from2a + identified2b, unknown, |found| + |notFound|,
                     |from2a| + |identified2b|, |unknown|, |from2a|, |identified2b|)
  }

  lemma {:induction false} FoundPaymentsMeaning(found: seq<Layer2ARow>)
    ensures var ps := Map(FoundPayment, found);
            && Originals(ps) == RowsOf(found) && |ps| == |found|
            && (forall p :: p in ps ==> p.Identified?)
            && forall p :: p in ps ==> FoundFrom(p, found)
  {
    if found != [] { FoundPaymentsMeaning(found[1..]); }
  }

  predicate FoundFrom(p: Payment, found: seq<Layer2ARow>) {
    exists i :: 0 <= i < |found| && p == FoundPayment(found[i])
  }

  /** All payments of a chunk, 2A first, 2B jobs in order. */
  function ChunkPayments(ctx: Context, chunk: seq<CreditRow>, size: nat, replies: Replies, c: nat): seq<Payment>
    requires size >= 1
  {
    Map(FoundPayment, Split2A(ctx, chunk, true)) + Layer2BPayments(ctx, Split2A(ctx, chunk, false), size, replies, c)
  }

  function ChunkLost(ctx: Context, chunk: seq<CreditRow>, size: nat, replies: Replies, c: nat): seq<CreditRow>
    requires size >= 1
  {
    Layer2BLost(ctx, Split2A(ctx, chunk, false), size, replies, c)
  }

  /** Each row of a chunk ends in exactly one payment or in a job that raised, and confirmed numbers resolve. */
  lemma ChunkConserves(ctx: Context, chunk: seq<CreditRow>, size: nat, replies: Replies, c: nat)
    requires size >= 1
    ensures var ps := ChunkPayments(ctx, chunk, size, replies, c);
            var lost := ChunkLost(ctx, chunk, size, replies, c);
            && multiset(Originals(ps)) + multiset(lost) == multiset(chunk)
            && (forall p :: p in ps ==> Sound(ctx.aging, p))
            && (WellTyped(replies) ==> lost == [])
  {
    hide *;
    var found, notFound := Split2A(ctx, chunk, true), Split2A(ctx, chunk, false);
    var from2a, from2b := Map(FoundPayment, found), Layer2BPayments(ctx, notFound, size, replies, c);
    ChunkUnfold(ctx, chunk, size, replies, c);
    Split2AMeaning(ctx, chunk);
    FoundSound(ctx, chunk);
    FoundPaymentsMeaning(found);
    Layer2BConserves(ctx, notFound, size, replies, c);
    OriginalsConcat(from2a, from2b);
    AddUp(Originals(from2a), [], RowsOf(found), Originals(from2b), ChunkLost(ctx, chunk, size, replies, c), RowsOf(notFound));
    assert [] + ChunkLost(ctx, chunk, size, replies, c) == ChunkLost(ctx, chunk, size, replies, c);
  }

  lemma ChunkUnfold(ctx: Context, chunk: seq<CreditRow>, size: nat, replies: Replies, c: nat)
    requires size >= 1
    ensures var notFound := Split2A(ctx, chunk, false);
            && ChunkPayments(ctx, chunk, size, replies, c)
               == Map(FoundPayment, Split2A(ctx, chunk, true)) + Layer2BPayments(ctx, notFound, size, replies, c)
            && ChunkLost(ctx, chunk, size, replies, c) == Layer2BLost(ctx, notFound, size, replies, c)
  {
  }

  lemma FoundSound(ctx: Context, chunk: seq<CreditRow>)
    ensures forall p :: p in Map(FoundPayment, Split2A(ctx, chunk, true)) ==> Sound(ctx.aging, p)
  {
    hide Split2A, AllResolve, Map;
    var found := Split2A(ctx, chunk, true);
    Split2AConfirmed(ctx, chunk);
    FoundPaymentsMeaning(found);
    forall p | p in Map(FoundPayment, found) ensures Sound(ctx.aging, p) {
      var i :| 0 <= i < |found| && p == FoundPayment(found[i]);
      assert found[i] in found;
    }
  }

  /** What the result of a chunk that does not fail must be, whatever the order its jobs finished in. */
  ghost predicate IsChunkResult(ctx: Context, chunk: seq<CreditRow>, size: nat, replies: Replies,
                                c: nat, total: nat, e: ExtractionResult)
    requires size >= 1
  {
    && e.index == c && e.total == total && e.rowCount == |chunk|
    && multiset(e.identified) + multiset(e.unknown) == multiset(ChunkPayments(ctx, chunk, size, replies, c))
    && (forall p :: p in e.identified ==> p.Identified?)
    && (forall p :: p in e.unknown ==> p.Unknown?)
    && e.identifiedCount == |e.identified| == e.hits2a + e.hits2b && e.unknownCount == |e.unknown|
    && e.hits2a <= |e.identified| && e.identified[..e.hits2a] == Map(FoundPayment, Split2A(ctx, chunk, true))
  }

  lemma MergedIsChunkResult(ctx: Context, chunk: seq<CreditRow>, size: nat, replies: Replies, c: nat, total: nat,
                            identified: seq<Payment>, unknown: seq<Payment>)
    requires size >= 1
    requires multiset(identified) + multiset(unknown)
             == multiset(Layer2BPayments(ctx, Split2A(ctx, chunk, false), size, replies, c))
    requires forall p :: p in identified ==> p.Identified?
    requires forall p :: p in unknown ==> p.Unknown?
    ensures IsChunkResult(ctx, chunk, size, replies, c, total,
                          Merge(c, total, Split2A(ctx, chunk, true), Split2A(ctx, chunk, false), identified, unknown))
  {
    hide Split2A, Layer2BPayments, Map, Originals, RowsOf;
    var found, notFound := Split2A(ctx, chunk, true), Split2A(ctx, chunk, false);
    Split2AMeaning(ctx, chunk);
    FoundPaymentsMeaning(found);
    var e := Merge(c, total, found, notFound, identified, unknown);
    assert e.identified[..e.hits2a] == Map(FoundPayment, found);
  }

  method ProcessChunk(ctx: Context, chunk: seq<CreditRow>, size: nat, replies: Replies, c: nat, total: nat)
    returns (e: ExtractionResult)
    requires size >= 1
    ensures IsChunkResult(ctx, chunk, size, replies, c, total, e)
  {
    hide Split2A, Layer2BPayments;
    var found, notFound := RunLayer2A(ctx, chunk);
    var identified, unknown := RunLayer2B(ctx, notFound, size, replies, c);
    e := Merge(c, total, found, notFound, identified, unknown);
    MergedIsChunkResult(ctx, chunk, size, replies, c, total, identified, unknown);
  }

  // ---- all chunks of a run ------------------------------------------------------------------------

  function EmptyResult(c: nat, total: nat, chunk: seq<CreditRow>): ExtractionResult {
    ExtractionResult(c, total, [], [], |chunk|, 0, |chunk|, 0, 0)
  }

  ghost predicate IsResultOf(ctx: Context, chunk: seq<CreditRow>, size: nat, replies: Replies,
                             failed: set<nat>, c: nat, total: nat, e: ExtractionResult)
    requires size >= 1
  {
    if c in failed then e == ExtractionResult(c, total, [], [], |chunk|, 0, |chunk|, 0, 0)
    else IsChunkResult(ctx, chunk, size, replies, c, total, e)
  }

  /**
   Chunks finish in any order; the list comes back in chunk order, one result per chunk, each
   made from its own chunk alone.  The set failed holds the chunks whose extraction raises.
   */
  method DispatchChunks(ctx: Context, rows: seq<CreditRow>, chunkSize: nat, size: nat, replies: Replies, failed: set<nat>)
    returns (results: seq<ExtractionResult>)
    requires chunkSize >= 1 && size >= 1
    ensures |results| == |Batches(rows, chunkSize)|
    ensures forall c: nat :: c < |results| ==>
              IsResultOf(ctx, Batches(rows, chunkSize)[c], size, replies, failed, c, |results|, results[c])
  {
    hide IsResultOf, Batches;
    var chunks := Slice(rows, chunkSize);
    var total := |chunks|;
    var byIndex: map<nat, ExtractionResult> := map[];
    var pending := Indices(total);
    while pending != {}
      invariant forall c: nat :: c in pending || c in byIndex <==> c < total
      invariant forall c: nat :: c in byIndex ==> IsResultOf(ctx, chunks[c], size, replies, failed, c, total, byIndex[c])
      decreases pending
    {
      var c :| c in pending;
      var e: ExtractionResult;
      if c in failed {
        e := EmptyResult(c, total, chunks[c]);
        ResultOfFailed(ctx, chunks[c], size, replies, failed, c, total);
      } else {
        e := ProcessChunk(ctx, chunks[c], size, replies, c, total);
        ResultOfProcessed(ctx, chunks[c], size, replies, failed, c, total, e);
      }
      byIndex := byIndex[c := e];
      pending := pending - {c};
    }
    results := [];
    for c := 0 to total
      invariant |results| == c
      invariant forall k: nat :: k < c ==> IsResultOf(ctx, chunks[k], size, replies, failed, k, total, results[k])
    {
      assert c in byIndex;
      results := results + [byIndex[c]];
    }
  }

  lemma ResultOfFailed(ctx: Context, chunk: seq<CreditRow>, size: nat, replies: Replies, failed: set<nat>, c: nat, total: nat)
    requires size >= 1 && c in failed
    ensures IsResultOf(ctx, chunk, size, replies, failed, c, total, EmptyResult(c, total, chunk))
  {
  }

  lemma ResultOfProcessed(ctx: Context, chunk: seq<CreditRow>, size: nat, replies: Replies, failed: set<nat>,
                          c: nat, total: nat, e: ExtractionResult)
    requires size >= 1 && c !in failed && IsChunkResult(ctx, chunk, size, replies, c, total, e)
    ensures IsResultOf(ctx, chunk, size, replies, failed, c, total, e)
  {
  }

  // ---- nothing lost, nothing repeated ----------------------------------------------------------------

  /** Every row that comes back in some payment, chunk by chunk. */
  function Returned(results: seq<ExtractionResult>): seq<CreditRow> {
    if results == [] then []
    else
      var e := results[|results| - 1];
      Returned(results[..|results| - 1]) + (Originals(e.identified) + Originals(e.unknown))
  }

  /** Every row of a failed chunk, or of a job that raised in another one. */
  function Dropped(ctx: Context, chunks: seq<seq<CreditRow>>, size: nat, replies: Replies, failed: set<nat>): seq<CreditRow>
    requires size >= 1
  {
    if chunks == [] then []
    else
      var c := |chunks| - 1;
      Dropped(ctx, chunks[..c], size, replies, failed)
      + if c in failed then chunks[c] else ChunkLost(ctx, chunks[c], size, replies, c)
  }

  ghost predicate AreResults(ctx: Context, chunks: seq<seq<CreditRow>>, size: nat, replies: Replies,
                             failed: set<nat>, total: nat, results: seq<ExtractionResult>)
    requires size >= 1
  {
    && |results| == |chunks|
    && forall c: nat :: c < |results| ==> IsResultOf(ctx, chunks[c], size, replies, failed, c, total, results[c])
  }

  /** One chunk's result accounts for its rows, in its lists and in its counts. */
  lemma ResultConserves(ctx: Context, chunk: seq<CreditRow>, size: nat, replies: Replies,
                        failed: set<nat>, c: nat, total: nat, e: ExtractionResult)
    requires size >= 1 && IsResultOf(ctx, chunk, size, replies, failed, c, total, e)
    ensures var lost := if c in failed then chunk else ChunkLost(ctx, chunk, size, replies, c);
            && multiset(Originals(e.identified) + Originals(e.unknown)) + multiset(lost) == multiset(chunk)
            && (forall p :: p in e.identified ==> Sound(ctx.aging, p))
            && e.index == c && e.rowCount == |chunk|
            && e.identifiedCount + e.unknownCount + (if c in failed then 0 else |lost|) == e.rowCount
  {
    assert Originals([]) == [];
    hide ChunkLost, ChunkPayments, Sound, Map;
    if c !in failed {
      ChunkConserves(ctx, chunk, size, replies, c);
      var ps := ChunkPayments(ctx, chunk, size, replies, c);
      MapPermutes(PaymentRow, e.identified + e.unknown, ps);
      MapConcat(PaymentRow, e.identified, e.unknown);
      MapLength(PaymentRow, e.identified + e.unknown);
      SameSize(Originals(e.identified + e.unknown), ChunkLost(ctx, chunk, size, replies, c), chunk);
      assert forall p :: p in e.identified ==> p in multiset(ps);
    }
  }

  lemma {:induction false} MapLength<A, B>(f: A -> B, xs: seq<A>)
    ensures |Map(f, xs)| == |xs|
  {
    if xs != [] { MapLength(f, xs[1..]); }
  }

  lemma SameSize(a: seq<CreditRow>, b: seq<CreditRow>, all: seq<CreditRow>)
    requires multiset(a) + multiset(b) == multiset(all)
    ensures |a| + |b| == |all|
  {
    assert |multiset(a) + multiset(b)| == |a| + |b|;
    assert |multiset(all)| == |all|;
  }

  /**
   For every completion order of chunks and jobs and every AI answer: the rows of the results
   and the rows of failed chunks and raised jobs are together exactly the rows that went in.
   */
  lemma {:induction false} ResultsConserve(ctx: Context, chunks: seq<seq<CreditRow>>, size: nat, replies: Replies,
                                           failed: set<nat>, total: nat, results: seq<ExtractionResult>)
    requires size >= 1 && AreResults(ctx, chunks, size, replies, failed, total, results)
    ensures multiset(Returned(results)) + multiset(Dropped(ctx, chunks, size, replies, failed)) == multiset(Flatten(chunks))
    ensures WellTyped(replies) && failed == {} ==> Dropped(ctx, chunks, size, replies, failed) == []
  {
    if chunks != [] {
      var c := |chunks| - 1;
      var init, e := results[..c], results[c];
      ResultsConserve(ctx, chunks[..c], size, replies, failed, total, init);
      ResultConserves(ctx, chunks[c], size, replies, failed, c, total, e);
      ChunkConserves(ctx, chunks[c], size, replies, c);
      FlattenSnoc(chunks[..c], chunks[c]);
      SplitLast(chunks);
      ConservesMore(ctx, chunks, size, replies, failed, results);
      AddUp(Returned(init), Dropped(ctx, chunks[..c], size, replies, failed), Flatten(chunks[..c]),
            Originals(e.identified) + Originals(e.unknown),
            if c in failed then chunks[c] else ChunkLost(ctx, chunks[c], size, replies, c), chunks[c]);
      hide *;
    }
  }

  lemma ConservesMore(ctx: Context, chunks: seq<seq<CreditRow>>, size: nat, replies: Replies, failed: set<nat>,
                      results: seq<ExtractionResult>)
    requires size >= 1 && chunks != [] && |results| == |chunks|
    ensures var c := |chunks| - 1;
            var back := Originals(results[c].identified) + Originals(results[c].unknown);
            var lost := if c in failed then chunks[c] else ChunkLost(ctx, chunks[c], size, replies, c);
            var dropped := Dropped(ctx, chunks[..c], size, replies, failed);
            && multiset(Returned(results)) == multiset(Returned(results[..c])) + multiset(back)
            && Dropped(ctx, chunks, size, replies, failed) == dropped + lost
            && multiset(dropped + lost) == multiset(dropped) + multiset(lost)
  {
    hide Originals, ChunkLost;
  }

  /** The whole dispatch: with well-typed answers and no failure, the rows in are the rows out. */
  lemma DispatchConserves(ctx: Context, rows: seq<CreditRow>, chunkSize: nat, size: nat, replies: Replies,
                          failed: set<nat>, results: seq<ExtractionResult>)
    requires chunkSize >= 1 && size >= 1
    requires AreResults(ctx, Batches(rows, chunkSize), size, replies, failed, |results|, results)
    ensures multiset(Returned(results)) + multiset(Dropped(ctx, Batches(rows, chunkSize), size, replies, failed)) == multiset(rows)
    ensures WellTyped(replies) && failed == {} ==> multiset(Returned(results)) == multiset(rows)
  {
    hide *;
    BatchesMeaning(rows, chunkSize);
    ResultsConserve(ctx, Batches(rows, chunkSize), size, replies, failed, |results|, results);
  }

  // ---- what the rule engine receives --------------------------------------------------------------------

  /** The engine's input for an identified payment without a remittance. */
  predicate BuiltFrom(input: RuleInput, p: Payment) {
    p.Identified? && input.extracted == p.confirmed && input.ou == p.original.ou && !input.remittance.found
  }

  /**
   End to end: a payment identified by regex or by any AI answer whatever, evaluated without a
   remittance against the same aging rows, never fails as unknown to the aging rows, and a
   non-empty matched list is the confirmed list, in order.
   */
  lemma IdentifiedPaymentsMatch(ctx: Context, chunk: seq<CreditRow>, size: nat, replies: Replies,
                                failed: set<nat>, c: nat, total: nat, e: ExtractionResult, p: Payment,
                                rnd: Rounding, input: RuleInput, tolerance: real, fuzzyMin: real)
    requires size >= 1 && IsResultOf(ctx, chunk, size, replies, failed, c, total, e)
    requires p in e.identified && BuiltFrom(input, p)
    ensures p.original in chunk
    ensures var r := EvaluateRow(rnd, ctx.aging, input, tolerance, fuzzyMin);
            r.Evaluated? ==>
              && r.result.rule != R4
              && (r.result.matched != [] ==> Numbers(r.result.matched) == p.confirmed)
  {
    hide EvaluateRow, IsResultOf, ChunkLost, Lookup, Originals, Numbers, Sound, IsChunkResult;
    ResultConserves(ctx, chunk, size, replies, failed, c, total, e);
    SoundMeaning(ctx.aging, p);
    ConfirmedRowsMatchInOrder(rnd, ctx.aging, input, tolerance, fuzzyMin);
    OriginalIn(e.identified, p);
    assert p.original in multiset(chunk) by {
      assert p.original in multiset(Originals(e.identified) + Originals(e.unknown));
    }
  }

  lemma SoundMeaning(aging: seq<AgingInvoice>, p: Payment)
    requires Sound(aging, p) && p.Identified?
    ensures forall n | n in p.confirmed :: Lookup(aging, n, p.original.ou).Some?
  {
    hide Lookup;
  }

  lemma {:induction false} OriginalIn(ps: seq<Payment>, p: Payment)
    requires p in ps
    ensures p.original in Originals(ps)
  {
    if ps[0] != p { OriginalIn(ps[1..], p); }
  }

  // ---- what the run may persist ----------------------------------------------------------------------------

  function LedgerId(row: CreditRow): nat { row.id }

  lemma {:induction false} DistinctCounts(xs: seq<nat>, x: nat)
    requires NoRepeats(xs)
    ensures multiset(xs)[x] <= 1
  {
    if xs != [] {
      var init, last := xs[..|xs| - 1], xs[|xs| - 1];
      DistinctCounts(init, x);
      SplitLast(xs);
      assert last !in init;
      assert multiset(xs) == multiset(init) + multiset{last};
    }
  }

  lemma {:induction false} CountsDistinct(xs: seq<nat>)
    requires forall x :: multiset(xs)[x] <= 1
    ensures NoRepeats(xs)
  {
    if xs != [] {
      var init, last := xs[..|xs| - 1], xs[|xs| - 1];
      SplitLast(xs);
      assert multiset(xs) == multiset(init) + multiset{last};
      forall x ensures multiset(init)[x] <= 1 {
        assert multiset(xs)[x] == multiset(init)[x] + multiset{last}[x];
      }
      CountsDistinct(init);
      assert multiset(xs)[last] == multiset(init)[last] + 1;
      assert last !in multiset(init);
      assert forall i :: 0 <= i < |init| ==> init[i] in multiset(init);
    }
  }

  lemma PartOfDistinct(kept: seq<nat>, rest: seq<nat>, loaded: seq<nat>)
    requires NoRepeats(loaded) && multiset(kept) + multiset(rest) == multiset(loaded)
    ensures NoRepeats(kept)
    ensures forall x :: x in kept ==> x in loaded
    ensures forall x :: x in rest ==> x !in kept
  {
    forall x ensures multiset(kept)[x] + multiset(rest)[x] <= 1 {
      DistinctCounts(loaded, x);
      assert multiset(loaded)[x] == multiset(kept)[x] + multiset(rest)[x];
    }
    CountsDistinct(kept);
    forall x | x in rest ensures x !in kept {
      assert x in multiset(rest);
      assert x !in multiset(kept);
    }
    forall x | x in kept ensures x in loaded {
      assert x in multiset(kept);
      assert x in multiset(loaded);
    }
  }

  /**
   The extraction step of a run is always possible: whatever came back, in whatever order, is
   made of loaded ledger rows, each at most once, so no row can get two line items from one run.
   */
  lemma ExtractionFeedsRun(ctx: Context, rows: seq<CreditRow>, chunkSize: nat, size: nat, replies: Replies,
                           failed: set<nat>, results: seq<ExtractionResult>, run: AnalysisRuns.Run)
    requires chunkSize >= 1 && size >= 1
    requires AreResults(ctx, Batches(rows, chunkSize), size, replies, failed, |results|, results)
    requires run.phase.Loading? && run.phase.next >= |run.files|
    requires NoRepeats(run.loaded) && Map(LedgerId, rows) == run.loaded
    ensures AnalysisRuns.CanMove(run, AnalysisRuns.Extract(Map(LedgerId, Returned(results))))
    ensures WellTyped(replies) && failed == {} ==> multiset(Map(LedgerId, Returned(results))) == multiset(run.loaded)
  {
    hide NoRepeats, AreResults, Returned, Dropped, Map, WellTyped, Batches;
    var kept, dropped := Returned(results), Dropped(ctx, Batches(rows, chunkSize), size, replies, failed);
    DispatchConserves(ctx, rows, chunkSize, size, replies, failed, results);
    KeptAndDropped(ctx, rows, chunkSize, size, replies, failed, results);
    PartOfDistinct(Map(LedgerId, kept), Map(LedgerId, dropped), run.loaded);
    if WellTyped(replies) && failed == {} {
      MapPermutes(LedgerId, kept, rows);
    }
  }

  /**
   Extraction and run composed: a loaded row that ended in a failed chunk or a raised job is
   committed and marked by this run in no later schedule, so another run can still take it.
   */
  lemma DroppedRowsAreLeftForOthers(ctx: Context, rows: seq<CreditRow>, chunkSize: nat, size: nat, replies: Replies,
                                    failed: set<nat>, results: seq<ExtractionResult>,
                                    hash: string -> int, s: AnalysisRuns.System, i: nat, actions: seq<AnalysisRuns.Action>)
    requires chunkSize >= 1 && size >= 1
    requires AreResults(ctx, Batches(rows, chunkSize), size, replies, failed, |results|, results)
    requires AnalysisRuns.Inv(hash, s) && i < |s.runs| && Map(LedgerId, rows) == s.runs[i].loaded
    requires s.runs[i].phase.Loading? && s.runs[i].phase.next >= |s.runs[i].files|
    ensures var extract := AnalysisRuns.Advance(i, AnalysisRuns.Extract(Map(LedgerId, Returned(results))));
            AnalysisRuns.Enabled(s, extract)
            && var later := AnalysisRuns.Schedule(hash, AnalysisRuns.Next(hash, s, extract), actions);
               && i < |later.runs|
               && forall x :: x in Map(LedgerId, Dropped(ctx, Batches(rows, chunkSize), size, replies, failed)) ==>
                    && x !in later.runs[i].committed
                    && (x < |later.table| ==> later.table[x].consumedBy != Some(i))
  {
    LoadedOnce(hash, s, i);
    hide *;
    var kept, dropped := Returned(results), Dropped(ctx, Batches(rows, chunkSize), size, replies, failed);
    ExtractionFeedsRun(ctx, rows, chunkSize, size, replies, failed, results, s.runs[i]);
    KeptAndDropped(ctx, rows, chunkSize, size, replies, failed, results);
    PartOfDistinct(Map(LedgerId, kept), Map(LedgerId, dropped), s.runs[i].loaded);
    ExtractEnabled(s, i, Map(LedgerId, kept));
    AnalysisRuns.DroppedRowsStayUnconsumed(s, i, Map(LedgerId, kept), hash, actions);
  }

  lemma LoadedOnce(hash: string -> int, s: AnalysisRuns.System, i: nat)
    requires AnalysisRuns.Inv(hash, s) && i < |s.runs|
    ensures NoRepeats(s.runs[i].loaded)
  {
    assert AnalysisRuns.RunOk(hash, s, i);
  }

  lemma ExtractEnabled(s: AnalysisRuns.System, i: nat, kept: seq<nat>)
    requires i < |s.runs| && AnalysisRuns.CanMove(s.runs[i], AnalysisRuns.Extract(kept))
    ensures AnalysisRuns.Enabled(s, AnalysisRuns.Advance(i, AnalysisRuns.Extract(kept)))
  {
    hide AnalysisRuns.CanMove;
  }

  lemma KeptAndDropped(ctx: Context, rows: seq<CreditRow>, chunkSize: nat, size: nat, replies: Replies,
                       failed: set<nat>, results: seq<ExtractionResult>)
    requires chunkSize >= 1 && size >= 1
    requires AreResults(ctx, Batches(rows, chunkSize), size, replies, failed, |results|, results)
    ensures var dropped := Dropped(ctx, Batches(rows, chunkSize), size, replies, failed);
            multiset(Map(LedgerId, Returned(results))) + multiset(Map(LedgerId, dropped)) == multiset(Map(LedgerId, rows))
  {
    hide *;
    var kept, dropped := Returned(results), Dropped(ctx, Batches(rows, chunkSize), size, replies, failed);
    DispatchConserves(ctx, rows, chunkSize, size, replies, failed, results);
    assert multiset(kept + dropped) == multiset(rows);
    MapPermutes(LedgerId, kept + dropped, rows);
    MapConcat(LedgerId, kept, dropped);
  }
}
