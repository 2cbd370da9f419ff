/** Settlements of one transaction that do not overlap sell it at most once, so its jobs stay covered. */
module SettleOnce {
  import opened Wrappers
  import opened Accounts
  import opened Market
  import opened World
  import opened Solvency
  import opened Freshness

  /** No two suspended settlements work on the same transaction. */
  ghost predicate NoOverlap(w: World) {
    forall c, d :: 0 <= c < d < |w.calls| && Holds(w.calls[c]) && Holds(w.calls[d]) ==>
      w.calls[c].phase.tx != w.calls[d].phase.tx
  }

  ghost predicate NeverOverlaps(ws: seq<World>, i: nat)
    requires i < |ws|
  {
    forall j :: 0 <= j <= i ==> NoOverlap(ws[j])
  }

  /** A sold transaction is no longer pending, no settlement works on it, and it was sold once. */
  ghost predicate Spent(calls: seq<Call>, pending: map<Index, Transaction>, sales: seq<Sale>) {
    && (forall i, k :: 0 <= i < |sales| && k in pending ==> pending[k].bytes != sales[i].tx.bytes)
    && (forall i, c :: 0 <= i < |sales| && 0 <= c < |calls| && Holds(calls[c]) ==>
          calls[c].phase.tx.bytes != sales[i].tx.bytes)
    && (forall i, j :: 0 <= i < j < |sales| ==> sales[i].tx.bytes != sales[j].tx.bytes)
  }

  lemma SpentMove(calls: seq<Call>, c: nat, call: Call, pending: map<Index, Transaction>, sales: seq<Sale>)
    requires c < |calls| && Spent(calls, pending, sales)
    requires Holds(call) ==> (Holds(calls[c]) && call.phase.tx == calls[c].phase.tx)
                             || (call.index in pending && call.phase.tx == pending[call.index])
    ensures Spent(calls[c := call], pending, sales)
  {
  }

  lemma SpentSale(calls: seq<Call>, c: nat, call: Call, pending: map<Index, Transaction>, sales: seq<Sale>, sale: Sale)
    requires c < |calls| && Spent(calls, pending, sales)
    requires Holds(calls[c]) && calls[c].phase.tx == sale.tx && !Holds(call)
    requires forall d :: 0 <= d < |calls| && d != c && Holds(calls[d]) ==> calls[d].phase.tx.bytes != sale.tx.bytes
    requires forall k :: k in pending && k != sale.index ==> pending[k].bytes != sale.tx.bytes
    ensures Spent(calls[c := call], pending - {sale.index}, sales + [sale])
  {
  }

  lemma OthersApart(start: World, w: World, c: nat)
    requires LifetimeStart(start) && Fresh(start, w) && NoOverlap(w) && c < |w.calls| && Holds(w.calls[c])
    ensures forall d :: 0 <= d < |w.calls| && d != c && Holds(w.calls[d]) ==>
              w.calls[d].phase.tx.bytes != w.calls[c].phase.tx.bytes
    ensures forall k :: k in w.m.pending && k != w.calls[c].index ==>
              w.m.pending[k].bytes != w.calls[c].phase.tx.bytes
  {
    var tx := w.calls[c].phase.tx;
    forall d | 0 <= d < |w.calls| && d != c && Holds(w.calls[d])
      ensures w.calls[d].phase.tx.bytes != tx.bytes
    {
      assert w.calls[d].phase.tx != tx;
      BytesIdentify(start, w, w.calls[d].phase.tx, tx);
    }
    forall k | k in w.m.pending && k != w.calls[c].index
      ensures w.m.pending[k].bytes != tx.bytes
    {
      BytesIdentify(start, w, w.m.pending[k], tx);
    }
  }

  lemma SpentFinish(start: World, w: World, c: nat)
    requires LifetimeStart(start) && Fresh(start, w) && NoOverlap(w) && Enabled(w, FinishSettle(c))
    requires Spent(w.calls, w.m.pending, w.past.sales)
    ensures var w' := ApplyFinish(w, c); Spent(w'.calls, w'.m.pending, w'.past.sales)
  {
    var call := w.calls[c];
    var tx := call.phase.tx;
    var w' := ApplyFinish(w, c);
    FinishRecords(w.m, call.index, tx, call.phase.balance, w.now);
    OthersApart(start, w, c);
    assert w'.calls == w.calls[c := w'.calls[c]] && !Holds(w'.calls[c]);
    SpentMove(w.calls, c, w'.calls[c], w.m.pending, w.past.sales);
    SpentSale(w.calls, c, w'.calls[c], w.m.pending, w.past.sales, Sale(call.index, tx, call.phase.balance));
  }

  /** A new transaction takes a subaccount no sold one has. */
  lemma SpentNew(calls: seq<Call>, pending: map<Index, Transaction>, sales: seq<Sale>, index: Index, tx: Transaction)
    requires Spent(calls, pending, sales)
    requires forall i :: 0 <= i < |sales| ==> sales[i].tx.bytes != tx.bytes
    ensures Spent(calls, pending[index := tx], sales)
  {
  }

  lemma NewApart(start: World, w: World, c: nat, sold: Transaction)
    requires LifetimeStart(start) && Fresh(start, w) && c < |w.calls| && Reserves(w.calls[c])
    requires Known(sold, w.past.created, start.m.pending)
    ensures sold.bytes != w.calls[c].intent.bytes
  {
  }

  lemma SpentContinue(start: World, w: World, c: nat)
    requires LifetimeStart(start) && Fresh(start, w) && Enabled(w, Continue(c))
    requires Spent(w.calls, w.m.pending, w.past.sales)
    ensures var w' := ApplyContinue(w, c); Spent(w'.calls, w'.m.pending, w'.past.sales)
  {
    var call := w.calls[c];
    var calls := w.calls[c := call.(phase := Done)];
    SpentMove(w.calls, c, call.(phase := Done), w.m.pending, w.past.sales);
    if call.phase.ok && call.intent.ForLock? {
      var tx := NewTransaction(w.m, call.index, call.intent.listing, call.intent.bytes, call.intent.buyer, w.now);
      forall i | 0 <= i < |w.past.sales|
        ensures w.past.sales[i].tx.bytes != tx.bytes
      {
        NewApart(start, w, c, w.past.sales[i].tx);
      }
      SpentNew(calls, w.m.pending, w.past.sales, call.index, tx);
    }
  }

  lemma SpentMoves(w: World, s: Step)
    requires Enabled(w, s) && IsCallStep(s) && !s.FinishSettle? && !s.Continue?
    requires Spent(w.calls, w.m.pending, w.past.sales)
    ensures var w' := ApplyCall(w, s); Spent(w'.calls, w'.m.pending, w'.past.sales)
  {
    var w' := ApplyCall(w, s);
    var c := CallOf(s);
    assert w'.calls == w.calls[c := w'.calls[c]] && w'.m == w.m && w'.past == w.past;
    SpentMove(w.calls, c, w'.calls[c], w.m.pending, w.past.sales);
  }

  lemma SpentOther(w: World, s: Step)
    requires Enabled(w, s) && !IsCallStep(s)
    requires Spent(w.calls, w.m.pending, w.past.sales)
    ensures var w' := Apply(w, s); Spent(w'.calls, w'.m.pending, w'.past.sales)
  {
    var w' := Apply(w, s);
    if s.BeginLock? {
      LockEffect(w, s.index, s.asked, s.buyer);
    } else {
      OtherRecords(w, s);
      if s.BeginList? || s.BeginSettle? {
        assert w'.calls == w.calls + [w'.calls[|w.calls|]];
      }
    }
  }

  ghost predicate SpentIn(w: World) {
    Spent(w.calls, w.m.pending, w.past.sales)
  }

  lemma SpentStep(start: World, w: World, s: Step)
    requires LifetimeStart(start) && Fresh(start, w) && NoOverlap(w) && Enabled(w, s) && SpentIn(w)
    ensures SpentIn(Apply(w, s))
  {
    if s.FinishSettle? {
      SpentFinish(start, w, s.call);
    } else if s.Continue? {
      SpentContinue(start, w, s.call);
    } else if IsCallStep(s) {
      SpentMoves(w, s);
    } else {
      SpentOther(w, s);
    }
  }

  lemma SpentNext(ws: seq<World>, steps: seq<Step>, i: nat)
    requires IsRun(ws, steps) && LifetimeStart(ws[0]) && i < |steps| && Fits(ws[i]) && NoOverlap(ws[i])
    requires SpentIn(ws[i])
    ensures SpentIn(ws[i + 1])
  {
    FreshRun(ws, steps, i);
    SpentStep(ws[0], ws[i], steps[i]);
  }

  lemma FitsBefore(ws: seq<World>, steps: seq<Step>, i: nat)
    requires IsRun(ws, steps) && i < |steps| && Fits(ws[i + 1])
    ensures Fits(ws[i])
  {
    assert Enabled(ws[i], steps[i]) && ws[i + 1] == Apply(ws[i], steps[i]);
    CounterGrows(ws[i], steps[i]);
  }

  lemma {:induction false} SpentRun(ws: seq<World>, steps: seq<Step>, i: nat)
    requires IsRun(ws, steps) && LifetimeStart(ws[0]) && i < |ws| && Fits(ws[i]) && NeverOverlaps(ws, i)
    ensures SpentIn(ws[i])
  {
    if i > 0 {
      FitsBefore(ws, steps, i - 1);
      SpentRun(ws, steps, i - 1);
      SpentNext(ws, steps, i - 1);
    }
  }

  lemma {:induction false} DistinctSales(sales: seq<Sale>, sub: SubAccount)
    requires forall i, j :: 0 <= i < j < |sales| ==> sales[i].tx.bytes != sales[j].tx.bytes
    ensures SalesFrom(sales, sub) <= 1
    ensures (forall i :: 0 <= i < |sales| ==> sales[i].tx.bytes != sub) ==> SalesFrom(sales, sub) == 0
  {
    if sales != [] {
      DistinctSales(sales[..|sales| - 1], sub);
    }
  }

  /**
   * In a lifetime in which no two outstanding settlements ever hold the same transaction, every
   * transaction, restored ones included, is sold at most once.
   */
  lemma SoldAtMostOnce(ws: seq<World>, steps: seq<Step>, i: nat, sub: SubAccount)
    requires IsRun(ws, steps) && LifetimeStart(ws[0]) && i < |ws| && Fits(ws[i]) && NeverOverlaps(ws, i)
    ensures forall a, b :: 0 <= a < b < |ws[i].past.sales| ==>
              ws[i].past.sales[a].tx.bytes != ws[i].past.sales[b].tx.bytes
    ensures SalesFrom(ws[i].past.sales, sub) <= 1
  {
    SpentRun(ws, steps, i);
    DistinctSales(ws[i].past.sales, sub);
  }

  /** Then the record of a sale is replaced exactly when another transaction is sold under its id. */
  lemma RecordKeptUntilNextSale(ws: seq<World>, steps: seq<Step>, i: nat, j: nat, n: nat)
    requires IsRun(ws, steps) && LifetimeStart(ws[0]) && i <= j < |ws| && Fits(ws[j]) && NeverOverlaps(ws, j)
    requires n < |ws[i].past.sales|
    ensures var (tx, sales) := (ws[i].past.sales[n].tx, ws[j].past.sales);
            |ws[i].past.sales| <= |sales| &&
            (RecordOf(ws[j].m.transactions, tx) <==> forall m :: n < m < |sales| ==> sales[m].tx.id != tx.id)
  {
    var (tx, sales) := (ws[i].past.sales[n].tx, ws[j].past.sales);
    SpentRun(ws, steps, j);
    SalesGrow(ws, steps, i, j);
    assert sales[n].tx == tx;
    RecordsAreLastSales(ws, steps, j);
    assert RecordedAt(ws[j].m.transactions, ws[0].m.transactions, sales, tx.id);
    LastSoldIs(sales, n);
  }

  /** The last transaction sold under an id is that of a given sale exactly when no later one has the id. */
  lemma {:induction false} LastSoldIs(sales: seq<Sale>, n: nat)
    requires n < |sales|
    requires forall a, b :: 0 <= a < b < |sales| ==> sales[a].tx.bytes != sales[b].tx.bytes
    ensures var last := LastSold(sales, sales[n].tx.id);
            last.Some? && (last.value.bytes == sales[n].tx.bytes <==> last.value == sales[n].tx)
            && (last == Some(sales[n].tx) <==> forall m :: n < m < |sales| ==> sales[m].tx.id != sales[n].tx.id)
    decreases |sales|
  {
    var k := |sales| - 1;
    if sales[k].tx.id == sales[n].tx.id {
      assert n == k || sales[n].tx.bytes != sales[k].tx.bytes;
    } else {
      var init := sales[..k];
      assert init[n] == sales[n];
      LastSoldIs(init, n);
      assert forall m :: 0 <= m < k ==> init[m] == sales[m];
    }
  }

  /** The payments restored to the queue are covered, and are not from the subaccount of a pending transaction. */
  predicate RestoredCovered(w: World, sub: SubAccount) {
    && IsCovered(w, sub)
    && (Owed(w, sub) > 0 ==>
          Taken(sub, w.m.nextSubAccount) && forall k :: k in w.m.pending ==> w.m.pending[k].bytes != sub)
  }

  lemma {:induction false} NoProceeds(sales: seq<Sale>, sub: SubAccount)
    requires forall n :: 0 <= n < |sales| ==> sales[n].tx.bytes != sub
    ensures Proceeds(sales, sub) == 0
  {
    if sales != [] {
      NoProceeds(sales[..|sales| - 1], sub);
    }
  }

  /** Nothing is sold any more from the subaccount of a restored payment. */
  lemma RestoredStayCovered(ws: seq<World>, steps: seq<Step>, i: nat, sub: SubAccount)
    requires IsRun(ws, steps) && LifetimeStart(ws[0]) && i < |ws| && Fits(ws[i])
    requires RestoredCovered(ws[0], sub) && Owed(ws[0], sub) > 0
    ensures IsCovered(ws[i], sub)
  {
    FreshRun(ws, steps, i);
    forall n | 0 <= n < |ws[i].past.sales|
      ensures ws[i].past.sales[n].tx.bytes != sub
    {
      assert Known(ws[i].past.sales[n].tx, ws[i].past.created, ws[0].m.pending);
    }
    NoProceeds(ws[i].past.sales, sub);
    CoveredExactlyWhen(ws, steps, i, sub);
  }

  lemma JobsAreCovered(ws: seq<World>, steps: seq<Step>, i: nat, sub: SubAccount)
    requires IsRun(ws, steps) && LifetimeStart(ws[0]) && i < |ws| && Fits(ws[i]) && NeverOverlaps(ws, i)
    requires RestoredCovered(ws[0], sub)
    ensures IsCovered(ws[i], sub)
  {
    if Owed(ws[0], sub) > 0 {
      RestoredStayCovered(ws, steps, i, sub);
    } else {
      SoldAtMostOnce(ws, steps, i, sub);
      BalanceCoversJobs(ws, steps, i, sub);
    }
  }

  /**
   * Solvency: in such a lifetime the balance of every subaccount covers amount plus fee of all jobs
   * still to be paid from it, and no payment is ever refused or dropped for lack of funds.
   */
  lemma SalesAreCovered(ws: seq<World>, steps: seq<Step>, i: nat, sub: SubAccount)
    requires IsRun(ws, steps) && LifetimeStart(ws[0]) && i < |ws| && Fits(ws[i]) && NeverOverlaps(ws, i)
    requires forall restored :: RestoredCovered(ws[0], restored)
    ensures IsCovered(ws[i], sub)
    ensures i < |steps| && steps[i].LedgerTransfer? ==> !steps[i].reply.InsufficientFunds?
  {
    JobsAreCovered(ws, steps, i, sub);
    if i < |steps| && steps[i].LedgerTransfer? {
      assert Enabled(ws[i], steps[i]);
      JobsAreCovered(ws, steps, i, ws[i].runs[steps[i].run].flight.job.bytes);
      NeverInsufficient(ws[i], steps[i].run, steps[i].reply);
    }
  }
}
