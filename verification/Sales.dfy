/** What a settlement does when it completes and when it does not, and the totals over whole runs. */
module Sales {
  import opened Wrappers
  import opened Accounts
  import opened FeeSplit
  import opened TokenLedger
  import opened Market
  import opened World
  import opened Disbursements
  import opened Serial

  // ---- The jobs of one sale ----

  /** One job per fee, the first fee last: each is pushed on the front. */
  function FeeJobs(fees: seq<Fee>, amounts: seq<nat>, index: Index, bytes: SubAccount): seq<Job>
    requires |fees| == |amounts|
  {
    if fees == [] then []
    else FeeJobs(fees[1..], amounts[1..], index, bytes) + [Job(index, fees[0].recipient, bytes, amounts[0])]
  }

  /** The fee loop queued what the split of the funds says, and trapped when the split did. */
  predicate Follows(paid: Outcome<(seq<Job>, nat)>, split: Outcome<(seq<nat>, nat)>, fees: seq<Fee>, queue: seq<Job>,
                    index: Index, bytes: SubAccount)
  {
    && (paid.Value? <==> split.Value?)
    && (split.Value? ==>
          && |split.value.0| == |fees|
          && paid.value == (FeeJobs(fees, split.value.0, index, bytes) + queue, split.value.1))
  }

  lemma FeeJobsNext(fees: seq<Fee>, amount: nat, amounts: seq<nat>, queue: seq<Job>, index: Index, bytes: SubAccount)
    requires |fees| == |amounts| + 1
    ensures FeeJobs(fees[1..], amounts, index, bytes) + ([Job(index, fees[0].recipient, bytes, amount)] + queue)
         == FeeJobs(fees, [amount] + amounts, index, bytes) + queue
  {
    assert ([amount] + amounts)[1..] == amounts;
  }

  lemma {:induction false} PayFeesSplits(fees: seq<Fee>, funds: nat, remaining: nat, queue: seq<Job>, index: Index,
                                         bytes: SubAccount)
    ensures Follows(PayFees(fees, funds, remaining, queue, index, bytes), Split(Rates(fees), funds, remaining),
                    fees, queue, index, bytes)
  {
    if fees != [] && funds * fees[0].rate < MAX64 {
      var amount := funds * fees[0].rate / RATE_UNIT;
      assert Rates(fees)[1..] == Rates(fees[1..]);
      if amount <= remaining {
        var job := Job(index, fees[0].recipient, bytes, amount);
        PayFeesSplits(fees[1..], funds, remaining - amount, [job] + queue, index, bytes);
        var split := Split(Rates(fees[1..]), funds, remaining - amount);
        if split.Value? {
          FeeJobsNext(fees, amount, split.value.0, queue, index, bytes);
        }
      }
    } else if fees == [] {
      assert FeeJobs([], [], index, bytes) + queue == queue;
    }
  }

  function Reserve(): nat {
    TRANSFER_FEE * (1 + |FEES|)
  }

  lemma SumTwo(a: nat, b: nat)
    ensures Sum([a, b]) == a + b
  {
    assert [a, b][1..] == [b];
    assert Sum([b]) == b;
  }

  lemma FeeJobsOfTable(amounts: seq<nat>, index: Index, bytes: SubAccount)
    requires |amounts| == 2
    ensures FeeJobs(FEES, amounts, index, bytes)
         == [Job(index, FEES[1].recipient, bytes, amounts[1]), Job(index, FEES[0].recipient, bytes, amounts[0])]
  {
    assert FEES[1..] == [FEES[1]] && [FEES[1]][1..] == [];
    assert amounts[1..] == [amounts[1]] && [amounts[1]][1..] == [];
    assert FeeJobs([FEES[1]], [amounts[1]], index, bytes) == [Job(index, FEES[1].recipient, bytes, amounts[1])];
  }

  /** The fee table takes 3% in all, so only an overflow can stop the split. */
  lemma TableFits(funds: nat)
    ensures Sum(Rates(FEES)) == 3000 <= RATE_UNIT
    ensures ProductsFit(Rates(FEES), funds) <==> 2000 * funds < MAX64
  {
    var rates := Rates(FEES);
    assert rates[0] == 2000 && rates[1] == 1000;
    assert rates == [2000, 1000];
    SumTwo(2000, 1000);
  }

  /** What a buyer must have paid, and what must fit, for a sale to go through. */
  predicate Fundable(tx: Transaction, balance: nat, totalVolume: nat) {
    && balance >= tx.price && balance >= Reserve()
    && 2000 * (balance - Reserve()) < MAX64
    && totalVolume + tx.price < MAX64
  }

  /** A 2% and a 1% fee, rounded down, and all the rest to the seller. */
  function SaleJobs(index: Index, tx: Transaction, balance: nat): seq<Job>
    requires balance >= Reserve()
  {
    var funds := balance - Reserve();
    var royalty, market := funds * 2000 / RATE_UNIT, funds * 1000 / RATE_UNIT;
    [Job(index, tx.from, tx.bytes, funds - royalty - market),
     Job(index, FEES[1].recipient, tx.bytes, market),
     Job(index, FEES[0].recipient, tx.bytes, royalty)]
  }

  lemma PaySplits(m: Market, index: Index, tx: Transaction, balance: nat)
    requires balance >= Reserve()
    ensures var funds := balance - Reserve();
            var split := Split(Rates(FEES), funds, funds);
            && (Pay(m, index, tx, balance).Value? <==> split.Value?)
            && (split.Value? ==>
                  && |split.value.0| == |FEES|
                  && Pay(m, index, tx, balance).value == m.(queue :=
                       [Job(index, tx.from, tx.bytes, split.value.1)]
                       + (FeeJobs(FEES, split.value.0, index, tx.bytes) + m.queue)))
  {
    PayFeesSplits(FEES, balance - Reserve(), balance - Reserve(), m.queue, index, tx.bytes);
  }

  /** The fee table splits the funds into 2%, 1% and the rest. */
  lemma SplitOfTable(funds: nat)
    ensures Split(Rates(FEES), funds, funds) ==
              if 2000 * funds < MAX64 then
                Value(([funds * 2000 / RATE_UNIT, funds * 1000 / RATE_UNIT],
                       funds - funds * 2000 / RATE_UNIT - funds * 1000 / RATE_UNIT))
              else Trap
  {
    TableFits(funds);
    SplitIsExact(Rates(FEES), funds);
    if 2000 * funds < MAX64 {
      var (amounts, rest) := Split(Rates(FEES), funds, funds).value;
      SumTwo(amounts[0], amounts[1]);
      assert amounts == [amounts[0], amounts[1]];
    }
  }

  lemma PayIsSaleJobs(m: Market, index: Index, tx: Transaction, balance: nat)
    ensures Pay(m, index, tx, balance).Value? <==> balance >= Reserve() && 2000 * (balance - Reserve()) < MAX64
    ensures Pay(m, index, tx, balance).Value? ==>
              Pay(m, index, tx, balance).value == m.(queue := SaleJobs(index, tx, balance) + m.queue)
  {
    if balance >= Reserve() {
      var funds := balance - Reserve();
      PaySplits(m, index, tx, balance);
      SplitOfTable(funds);
      if 2000 * funds < MAX64 {
        FeeJobsOfTable([funds * 2000 / RATE_UNIT, funds * 1000 / RATE_UNIT], index, tx.bytes);
        SaleQueue(m.queue, index, tx, balance);
      }
    }
  }

  lemma SaleQueue(queue: seq<Job>, index: Index, tx: Transaction, balance: nat)
    requires balance >= Reserve()
    ensures var jobs := SaleJobs(index, tx, balance);
            [jobs[0]] + ([jobs[1], jobs[2]] + queue) == jobs + queue
  {
  }

  /**
   * A settlement completes exactly when the balance covers the price and the ledger fees, nothing
   * overflows, and the seller still owns the token.
   */
  lemma SellsExactlyWhen(m: Market, index: Index, tx: Transaction, balance: nat, now: int)
    ensures SettleFinish(m, index, tx, balance, now).1.Sold? <==>
              Fundable(tx, balance, m.totalVolume) && OwnerAt(m.tokens, index) == Some(tx.from)
  {
    PayIsSaleJobs(m, index, tx, balance);
  }

  /** The lock on the listing has not run out. */
  predicate StillLocked(m: Market, index: Index, now: int) {
    index in m.listings && m.listings[index].locked.Some? && m.listings[index].locked.value >= now
  }

  /**
   * A settlement is all or nothing. When it completes, the token has moved from seller to buyer, the
   * three jobs are queued, the transaction is final and counted, and the listing is gone; otherwise
   * none of this has happened, and only an unpaid transaction whose lock is over is given up.
   */
  lemma AllOrNothing(m: Market, index: Index, tx: Transaction, balance: nat, now: int)
    ensures var (m', end) := SettleFinish(m, index, tx, balance, now);
            if end.Sold? then
              && balance >= Reserve()
              && OwnerAt(m.tokens, index) == Some(tx.from)
              && m' == m.(tokens := m.tokens[index := Some(Token(m.tokens[index].value.createdAt, tx.to, "N/A"))],
                          queue := SaleJobs(index, tx, balance) + m.queue,
                          transactions := m.transactions[tx.id := tx.(closed := Some(now))],
                          pending := m.pending - {index},
                          listings := m.listings - {index},
                          totalVolume := m.totalVolume + tx.price,
                          lowestPriceSale := if tx.price < m.lowestPriceSale then tx.price else m.lowestPriceSale,
                          highestPriceSale := if tx.price > m.highestPriceSale then tx.price else m.highestPriceSale)
            else if balance < tx.price && !StillLocked(m, index, now) then m' == m.(pending := m.pending - {index})
            else m' == m
  {
    PayIsSaleJobs(m, index, tx, balance);
  }

  function Amounts(): Job -> nat {
    (j: Job) => j.amount
  }

  /**
   * The three amounts and the three ledger fees add up to exactly the balance; rounding favours the
   * seller by less than 2.
   */
  lemma SaleJobsAddUp(index: Index, tx: Transaction, balance: nat)
    requires balance >= Reserve()
    ensures Weigh(Amounts(), SaleJobs(index, tx, balance)) + Reserve() == balance
    ensures var seller := SaleJobs(index, tx, balance)[0].amount;
            0 <= 100 * seller - 97 * (balance - Reserve()) < 200
  {
    var jobs := SaleJobs(index, tx, balance);
    WeighThree(Amounts(), jobs[0], jobs[1], jobs[2]);
    assert jobs == [jobs[0], jobs[1], jobs[2]];
  }

  lemma WeighThree(f: Job -> nat, a: Job, b: Job, c: Job)
    ensures Weigh(f, [a, b, c]) == f(a) + f(b) + f(c)
  {
    assert [a, b, c][1..] == [b, c] && [b, c][1..] == [c];
    assert Weigh(f, [c]) == f(c);
    assert Weigh(f, [b, c]) == f(b) + f(c);
  }

  /**
   * With accounts, rates and fees written out: 2% and 1% of what is left after three ledger fees go to
   * the fee accounts, the rest to the seller.
   */
  lemma SaleJobsWrittenOut(index: Index, tx: Transaction, balance: nat)
    requires balance >= 30_000
    ensures Reserve() == 30_000 && |SaleJobs(index, tx, balance)| == 3
    ensures var (jobs, funds) := (SaleJobs(index, tx, balance), balance - 30_000);
            && jobs[2] == Job(index, Plain("ea6e340b18837860b1d9f353af06d459af55c74d97ef3ac024c2a42778e3e030"),
                              tx.bytes, funds * 2 / 100)
            && jobs[1] == Job(index, Plain("c7e461041c0c5800a56b64bb7cefc247abc0bbbb99bd46ff71c64e92d9f5c2f9"),
                              tx.bytes, funds / 100)
            && jobs[0] == Job(index, tx.from, tx.bytes, funds - funds * 2 / 100 - funds / 100)
  {
    var funds: nat := balance - 30_000;
    assert funds * 2000 / 100_000 == funds * 2 / 100 && funds * 1000 / 100_000 == funds / 100;
  }

  // ---- Serial sales ----

  /**
   * When calls on the token are serial, a settlement that resumes with enough funds and no overflow
   * always completes: the ownership assert of the transfer is never what stops it.
   */
  lemma SerialSaleSettles(ws: seq<World>, steps: seq<Step>, i: nat, index: Index)
    requires SerialRun(ws, steps, index) && i < |steps|
    requires Coherent(At(ws[0].m, index)) && Quiet(ws[0], index)
    requires steps[i].FinishSettle? && ws[i].calls[steps[i].call].index == index
    ensures var (w, call) := (ws[i], ws[i].calls[steps[i].call]);
            && At(w.m, index).pending == Some(call.phase.tx)
            && (if Fundable(call.phase.tx, call.phase.balance, w.m.totalVolume)
                then At(ws[i + 1].m, index) == View(Some(call.phase.tx.to), None, None)
                else ws[i + 1].m.tokens == w.m.tokens && ws[i + 1].m.queue == w.m.queue)
  {
    SerialMarketplace(ws, steps, i, index);
    var call := ws[i].calls[steps[i].call];
    assert Live(call, index);
    SellsExactlyWhen(ws[i].m, index, call.phase.tx, call.phase.balance, ws[i].now);
    FinishView(ws[i].m, index, call.phase.tx, call.phase.balance, ws[i].now, index);
    AllOrNothing(ws[i].m, index, call.phase.tx, call.phase.balance, ws[i].now);
  }

  // ---- Totals over a run ----

  /** The jobs of all sales, latest first. */
  function AllJobs(sales: seq<Sale>): seq<Job> {
    if sales == [] then []
    else
      var last := sales[|sales| - 1];
      (if last.balance >= Reserve() then SaleJobs(last.index, last.tx, last.balance) else [])
      + AllJobs(sales[..|sales| - 1])
  }

  function Volume(sales: seq<Sale>): nat {
    if sales == [] then 0 else sales[|sales| - 1].tx.price + Volume(sales[..|sales| - 1])
  }

  function Received(sales: seq<Sale>): nat {
    if sales == [] then 0 else sales[|sales| - 1].balance + Received(sales[..|sales| - 1])
  }

  function Highest(start: nat, sales: seq<Sale>): nat {
    if sales == [] then start
    else
      var (price, before) := (sales[|sales| - 1].tx.price, Highest(start, sales[..|sales| - 1]));
      if price > before then price else before
  }

  function Lowest(start: nat, sales: seq<Sale>): nat {
    if sales == [] then start
    else
      var (price, before) := (sales[|sales| - 1].tx.price, Lowest(start, sales[..|sales| - 1]));
      if price < before then price else before
  }

  predicate Tally(start: Market, sales: seq<Sale>, queued: seq<Job>, volume: nat, highest: nat, lowest: nat) {
    && queued == AllJobs(sales) + start.queue
    && Weigh(Amounts(), AllJobs(sales)) + Reserve() * |sales| == Received(sales)
    && volume == start.totalVolume + Volume(sales)
    && highest == Highest(start.highestPriceSale, sales)
    && lowest == Lowest(start.lowestPriceSale, sales)
  }

  predicate Tallied(start: Market, w: World) {
    Tally(start, w.past.sales, w.past.queued, w.m.totalVolume, w.m.highestPriceSale, w.m.lowestPriceSale)
  }

  lemma TallySale(start: Market, sales: seq<Sale>, queued: seq<Job>, volume: nat, highest: nat, lowest: nat, sale: Sale)
    requires Tally(start, sales, queued, volume, highest, lowest) && sale.balance >= Reserve()
    ensures Tally(start, sales + [sale], SaleJobs(sale.index, sale.tx, sale.balance) + queued, volume + sale.tx.price,
                  if sale.tx.price > highest then sale.tx.price else highest,
                  if sale.tx.price < lowest then sale.tx.price else lowest)
  {
    var jobs := SaleJobs(sale.index, sale.tx, sale.balance);
    assert (sales + [sale])[..|sales|] == sales;
    WeighAppend(Amounts(), jobs, AllJobs(sales));
    SaleJobsAddUp(sale.index, sale.tx, sale.balance);
  }

  lemma TalliedFinish(start: Market, w: World, c: nat)
    requires Tallied(start, w) && Enabled(w, FinishSettle(c))
    ensures Tallied(start, ApplyFinish(w, c))
  {
    var call := w.calls[c];
    var (tx, balance) := (call.phase.tx, call.phase.balance);
    var (m, end) := SettleFinish(w.m, call.index, tx, balance, w.now);
    AllOrNothing(w.m, call.index, tx, balance, w.now);
    if end.Sold? {
      assert m.queue[..|FEES| + 1] == SaleJobs(call.index, tx, balance);
      TallySale(start, w.past.sales, w.past.queued, w.m.totalVolume, w.m.highestPriceSale, w.m.lowestPriceSale,
                Sale(call.index, tx, balance));
    }
  }

  lemma OtherTotals(w: World, s: Step)
    requires Enabled(w, s) && !s.FinishSettle?
    ensures var w' := Apply(w, s);
            && w'.past.queued == w.past.queued && w'.past.sales == w.past.sales
            && w'.m.totalVolume == w.m.totalVolume && w'.m.highestPriceSale == w.m.highestPriceSale
            && w'.m.lowestPriceSale == w.m.lowestPriceSale
  {
  }

  /**
   * Under every interleaving, in every state: the jobs ever queued are those of the completed sales,
   * three each, and those restored at the start; the amounts of the former and the reserved fees add
   * up to the balances those sales read; the volume is the sum of their prices, and the record prices
   * their maximum and minimum with the start.
   */
  lemma {:induction false} SalesAddUp(ws: seq<World>, steps: seq<Step>, i: nat)
    requires IsRun(ws, steps) && Idle(ws[0]) && i < |ws|
    ensures Tallied(ws[0].m, ws[i])
  {
    if i > 0 {
      SalesAddUp(ws, steps, i - 1);
      if steps[i - 1].FinishSettle? {
        TalliedFinish(ws[0].m, ws[i - 1], steps[i - 1].call);
      } else {
        OtherTotals(ws[i - 1], steps[i - 1]);
      }
    }
  }

  /** A sale is recorded exactly by a settle segment that moves the token from the seller to the buyer. */
  lemma SaleMovesToken(ws: seq<World>, steps: seq<Step>, i: nat)
    requires IsRun(ws, steps) && i < |steps|
    ensures ws[i + 1].past.sales == ws[i].past.sales ||
              (|ws[i + 1].past.sales| == |ws[i].past.sales| + 1 && steps[i].FinishSettle? &&
               var sale := ws[i + 1].past.sales[|ws[i].past.sales|];
               && ws[i + 1].past.sales == ws[i].past.sales + [sale]
               && OwnerAt(ws[i].m.tokens, sale.index) == Some(sale.tx.from)
               && OwnerAt(ws[i + 1].m.tokens, sale.index) == Some(sale.tx.to))
    ensures steps[i].FinishSettle? && ws[i + 1].past.sales == ws[i].past.sales ==>
              ws[i + 1].m.tokens == ws[i].m.tokens && ws[i + 1].m.queue == ws[i].m.queue
  {
    if steps[i].FinishSettle? {
      var call := ws[i].calls[steps[i].call];
      AllOrNothing(ws[i].m, call.index, call.phase.tx, call.phase.balance, ws[i].now);
    }
  }

  /**
   * The lowest sale price is the least price sold only when the counter started at or above it. It
   * starts at 0 in a new canister, and then stays 0 whatever is sold.
   */
  lemma {:induction false} LowestFromZero(sales: seq<Sale>)
    ensures Lowest(0, sales) == 0
  {
    if sales != [] {
      LowestFromZero(sales[..|sales| - 1]);
    }
  }

  function Least(sales: seq<Sale>): nat
    requires sales != []
  {
    var price := sales[|sales| - 1].tx.price;
    if |sales| == 1 then price
    else
      var before := Least(sales[..|sales| - 1]);
      if price < before then price else before
  }

  lemma {:induction false} LeastIsLeast(sales: seq<Sale>)
    requires sales != []
    ensures forall n :: 0 <= n < |sales| ==> Least(sales) <= sales[n].tx.price
    ensures exists n :: 0 <= n < |sales| && Least(sales) == sales[n].tx.price
  {
    assert sales[|sales| - 1].tx.price >= Least(sales);
    if |sales| > 1 {
      var init := sales[..|sales| - 1];
      LeastIsLeast(init);
      var n :| 0 <= n < |init| && Least(init) == init[n].tx.price;
      assert sales[n] == init[n];
      assert forall k :: 0 <= k < |init| ==> sales[k] == init[k];
    }
  }

  lemma {:induction false} LowestIsLeast(start: nat, sales: seq<Sale>)
    requires sales != []
    ensures Lowest(start, sales) == Least(sales) <==> Least(sales) <= start
    ensures Lowest(start, sales) == start || Lowest(start, sales) == Least(sales)
  {
    if |sales| > 1 {
      LowestIsLeast(start, sales[..|sales| - 1]);
    }
  }
}
