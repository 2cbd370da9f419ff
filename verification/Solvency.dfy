/**
 * Whether the money a buyer paid into the subaccount of a sale covers the payments owed from it,
 * over all runs of the system.
 */
module Solvency {
  import opened Accounts
  import opened FeeSplit
  import opened Market
  import opened World
  import opened Disbursements

  /** What a job will take from subaccount `sub`. */
  function Cost(sub: SubAccount): Job -> nat {
    (j: Job) => if j.bytes == sub then j.amount + TRANSFER_FEE else 0
  }

  /** What a cron run still has to take: not the job the ledger has already paid. */
  function Unpaid(sub: SubAccount): CronRun -> nat {
    (run: CronRun) => if run.flight.Replied? && run.flight.reply.Paid? then Weigh(Cost(sub), run.failed)
                      else WeighRun(Cost(sub), run)
  }

  /** All that is still to be paid from `sub`: queued, in flight or set aside as failed. */
  function Owed(w: World, sub: SubAccount): nat {
    Weigh(Cost(sub), w.m.queue) + SumRuns(Unpaid(sub), w.runs)
  }

  /** The balance covers all that is still to be paid. */
  predicate IsCovered(w: World, sub: SubAccount) {
    Owed(w, sub) <= Balance(w.bank, sub)
  }

  /** How often a sale has been settled from `sub`. */
  function SalesFrom(sales: seq<Sale>, sub: SubAccount): nat {
    if sales == [] then 0
    else (if sales[|sales| - 1].tx.bytes == sub then 1 else 0) + SalesFrom(sales[..|sales| - 1], sub)
  }

  // ---- What one sale queues ----

  /** The jobs of a sale cost exactly the balance that was read. */
  lemma {:induction false} FeesCost(fees: seq<Fee>, funds: nat, remaining: nat, queue: seq<Job>, index: Index,
                                    bytes: SubAccount, sub: SubAccount)
    requires PayFees(fees, funds, remaining, queue, index, bytes).Value?
    ensures var (queue', rest) := PayFees(fees, funds, remaining, queue, index, bytes).value;
            Weigh(Cost(sub), queue') ==
              Weigh(Cost(sub), queue) + if bytes == sub then remaining - rest + TRANSFER_FEE * |fees| else 0
  {
    if fees != [] {
      var amount := funds * fees[0].rate / RATE_UNIT;
      var job := Job(index, fees[0].recipient, bytes, amount);
      FeesCost(fees[1..], funds, remaining - amount, [job] + queue, index, bytes, sub);
      assert ([job] + queue)[1..] == queue;
    }
  }

  lemma SaleCost(m: Market, index: Index, tx: Transaction, balance: nat, now: int, sub: SubAccount)
    requires SettleFinish(m, index, tx, balance, now).1.Sold?
    ensures Weigh(Cost(sub), SettleFinish(m, index, tx, balance, now).0.queue)
         == Weigh(Cost(sub), m.queue) + if tx.bytes == sub then balance else 0
  {
    var funds := balance - TRANSFER_FEE * (1 + |FEES|);
    FeesCost(FEES, funds, funds, m.queue, index, tx.bytes, sub);
    var (queue, rest) := PayFees(FEES, funds, funds, m.queue, index, tx.bytes).value;
    var job := Job(index, tx.from, tx.bytes, rest);
    assert ([job] + queue)[1..] == queue;
    assert SettleFinish(m, index, tx, balance, now).0.queue == [job] + queue;
  }

  // ---- The invariant ----

  /**
   * Before the first sale from `sub` nothing is owed from it and every balance read is still there;
   * after one sale the balance covers all that is owed.
   */
  predicate Solvent(w: World, sub: SubAccount) {
    && (SalesFrom(w.past.sales, sub) == 0 ==>
          && Owed(w, sub) == 0
          && forall c :: 0 <= c < |w.calls| && w.calls[c].phase.Answered? && w.calls[c].phase.tx.bytes == sub ==>
               w.calls[c].phase.balance <= Balance(w.bank, sub))
    && (SalesFrom(w.past.sales, sub) <= 1 ==> Owed(w, sub) <= Balance(w.bank, sub))
  }

  lemma SolventFinish(w: World, c: nat, sub: SubAccount)
    requires Solvent(w, sub) && Enabled(w, FinishSettle(c))
    ensures Solvent(ApplyFinish(w, c), sub)
  {
    var call := w.calls[c];
    var (tx, balance) := (call.phase.tx, call.phase.balance);
    var w' := ApplyFinish(w, c);
    if SettleFinish(w.m, call.index, tx, balance, w.now).1.Sold? {
      SaleCost(w.m, call.index, tx, balance, w.now, sub);
      assert w'.past.sales[..|w.past.sales|] == w.past.sales;
    }
  }

  lemma SolventCronBegin(w: World, sub: SubAccount)
    requires Solvent(w, sub)
    ensures Solvent(ApplyCronBegin(w), sub)
  {
    var p := Pump(w.m.queue, []);
    PumpWeigh(Cost(sub), w.m.queue, []);
    ResumeWeigh(Cost(sub), w.m.(lastDisburseCron := w.now), p);
    SumRunsAppend(Unpaid(sub), w.runs, RunAt(p));
  }

  lemma SolventLedger(w: World, r: nat, reply: Reply, sub: SubAccount)
    requires Solvent(w, sub) && Enabled(w, LedgerTransfer(r, reply))
    ensures Solvent(ApplyLedger(w, r, reply), sub)
  {
    var run := w.runs[r].(flight := Replied(w.runs[r].flight.job, reply));
    SumRunsUpdate(Unpaid(sub), w.runs, r, run);
  }

  lemma SolventCronReply(w: World, r: nat, sub: SubAccount)
    requires Solvent(w, sub) && Enabled(w, CronReply(r))
    ensures Solvent(ApplyCronReply(w, r), sub)
  {
    var (job, reply) := (w.runs[r].flight.job, w.runs[r].flight.reply);
    var (m, p) := CronReplied(w.m, job, reply, w.runs[r].failed);
    var w' := ApplyCronReply(w, r);
    assert w'.m == m && w'.runs == w.runs[r := RunAt(p)] && w'.past.sales == w.past.sales;
    RepliedWeigh(Cost(sub), w.m, job, reply, w.runs[r].failed);
    SumRunsUpdate(Unpaid(sub), w.runs, r, RunAt(p));
    assert Owed(w', sub) <= Owed(w, sub);
  }

  /** Only the ledger takes money out, and a call reads no more than is there. */
  lemma BankGrows(w: World, s: Step, sub: SubAccount)
    requires Enabled(w, s) && !MovesJobs(s)
    ensures Balance(Apply(w, s).bank, sub) >= Balance(w.bank, sub)
    ensures forall c :: 0 <= c < |Apply(w, s).calls| && Apply(w, s).calls[c].phase.Answered? ==>
      Apply(w, s).calls[c].phase.balance == Balance(w.bank, Apply(w, s).calls[c].phase.tx.bytes)
      || (c < |w.calls| && Apply(w, s).calls[c] == w.calls[c])
  {
  }

  lemma SolventOther(w: World, s: Step, sub: SubAccount)
    requires Solvent(w, sub) && Enabled(w, s) && !MovesJobs(s)
    ensures Solvent(Apply(w, s), sub)
  {
    OtherStepsKeepJobs(w, s);
    BankGrows(w, s, sub);
  }

  lemma SolventDelete(w: World, index: Index, recipient: Account, owed: nat, sub: SubAccount)
    requires Solvent(w, sub)
    ensures Solvent(Apply(w, DeleteJobs(index, recipient, owed)), sub)
  {
    KeepWeigh(Cost(sub), w.m.queue, index, recipient, owed);
  }

  lemma SolventStep(w: World, s: Step, sub: SubAccount)
    requires Solvent(w, sub) && Enabled(w, s)
    ensures Solvent(Apply(w, s), sub)
  {
    if !MovesJobs(s) {
      SolventOther(w, s, sub);
    } else if s.FinishSettle? {
      SolventFinish(w, s.call, sub);
    } else if s.CronBegin? {
      SolventCronBegin(w, sub);
    } else if s.LedgerTransfer? {
      SolventLedger(w, s.run, s.reply, sub);
    } else if s.CronReply? {
      SolventCronReply(w, s.run, sub);
    } else {
      SolventDelete(w, s.index, s.recipient, s.owed, sub);
    }
  }

  lemma {:induction false} SolventRun(ws: seq<World>, steps: seq<Step>, i: nat, sub: SubAccount)
    requires IsRun(ws, steps) && Idle(ws[0]) && Owed(ws[0], sub) == 0 && i < |ws|
    ensures Solvent(ws[i], sub)
  {
    if i > 0 {
      SolventRun(ws, steps, i - 1, sub);
      SolventStep(ws[i - 1], steps[i - 1], sub);
    }
  }

  /**
   * Solvency under any interleaving: while at most one sale has been settled from a subaccount, its
   * ledger balance covers amount plus fee of every job still to be paid from it, wherever that job is.
   */
  lemma BalanceCoversJobs(ws: seq<World>, steps: seq<Step>, i: nat, sub: SubAccount)
    requires IsRun(ws, steps) && Idle(ws[0]) && Owed(ws[0], sub) == 0 && i < |ws|
    requires SalesFrom(ws[i].past.sales, sub) <= 1
    ensures IsCovered(ws[i], sub)
  {
    SolventRun(ws, steps, i, sub);
  }

  lemma {:induction false} RunWithin(sub: SubAccount, runs: seq<CronRun>, r: nat)
    requires r < |runs|
    ensures Unpaid(sub)(runs[r]) <= SumRuns(Unpaid(sub), runs)
  {
    if r > 0 {
      RunWithin(sub, runs[1..], r - 1);
    }
  }

  /** The ledger never refuses a payment from a covered subaccount for lack of funds, so none is dropped for it. */
  lemma NeverInsufficient(w: World, r: nat, reply: Reply)
    requires Enabled(w, LedgerTransfer(r, reply)) && IsCovered(w, w.runs[r].flight.job.bytes)
    ensures !reply.InsufficientFunds?
  {
    RunWithin(w.runs[r].flight.job.bytes, w.runs, r);
  }

  // ---- The books of a subaccount ----

  /** What the first i steps paid into the subaccount. */
  function Deposited(steps: seq<Step>, i: nat, sub: SubAccount): nat
    requires i <= |steps|
  {
    if i == 0 then 0
    else Deposited(steps, i - 1, sub)
         + if steps[i - 1].Deposit? && steps[i - 1].sub == sub then steps[i - 1].amount else 0
  }

  /** The sum of the balances that the sales from the subaccount read. */
  function Proceeds(sales: seq<Sale>, sub: SubAccount): nat {
    if sales == [] then 0
    else (if sales[|sales| - 1].tx.bytes == sub then sales[|sales| - 1].balance else 0)
         + Proceeds(sales[..|sales| - 1], sub)
  }

  /** What jobs that were dropped, or deleted by an admin, would have taken from the subaccount. */
  function Lost(past: History, sub: SubAccount): nat {
    Weigh(Cost(sub), past.dropped) + Weigh(Cost(sub), past.deleted)
  }

  /** Owed and lost, and all money that came in, against what is there now and what the sales read. */
  predicate Booked(w: World, money: int, sub: SubAccount) {
    Owed(w, sub) + Lost(w.past, sub) + money == Balance(w.bank, sub) + Proceeds(w.past.sales, sub)
  }

  lemma BookedFinish(w: World, c: nat, money: int, sub: SubAccount)
    requires Booked(w, money, sub) && Enabled(w, FinishSettle(c))
    ensures Booked(ApplyFinish(w, c), money, sub)
  {
    var call := w.calls[c];
    var (tx, balance) := (call.phase.tx, call.phase.balance);
    if SettleFinish(w.m, call.index, tx, balance, w.now).1.Sold? {
      SaleCost(w.m, call.index, tx, balance, w.now, sub);
      assert ApplyFinish(w, c).past.sales[..|w.past.sales|] == w.past.sales;
    }
  }

  lemma BookedCronBegin(w: World, money: int, sub: SubAccount)
    requires Booked(w, money, sub)
    ensures Booked(ApplyCronBegin(w), money, sub)
  {
    var p := Pump(w.m.queue, []);
    PumpWeigh(Cost(sub), w.m.queue, []);
    ResumeWeigh(Cost(sub), w.m.(lastDisburseCron := w.now), p);
    SumRunsAppend(Unpaid(sub), w.runs, RunAt(p));
  }

  lemma BookedLedger(w: World, r: nat, reply: Reply, money: int, sub: SubAccount)
    requires Booked(w, money, sub) && Enabled(w, LedgerTransfer(r, reply))
    ensures Booked(ApplyLedger(w, r, reply), money, sub)
  {
    var run := w.runs[r].(flight := Replied(w.runs[r].flight.job, reply));
    SumRunsUpdate(Unpaid(sub), w.runs, r, run);
  }

  lemma LostAfterReply(w: World, r: nat, sub: SubAccount)
    requires Enabled(w, CronReply(r))
    ensures var (job, reply) := (w.runs[r].flight.job, w.runs[r].flight.reply);
            Lost(ApplyCronReply(w, r).past, sub)
              == Lost(w.past, sub) + if reply.Paid? || Retryable(reply) then 0 else Cost(sub)(job)
  {
    assert ([w.runs[r].flight.job] + w.past.dropped)[1..] == w.past.dropped;
  }

  lemma OwedAfterReply(w: World, r: nat, sub: SubAccount)
    requires Enabled(w, CronReply(r))
    ensures var (job, reply) := (w.runs[r].flight.job, w.runs[r].flight.reply);
            Owed(ApplyCronReply(w, r), sub) + (if reply.Paid? || Retryable(reply) then 0 else Cost(sub)(job))
              == Owed(w, sub)
  {
    var (job, reply) := (w.runs[r].flight.job, w.runs[r].flight.reply);
    var (m, p) := CronReplied(w.m, job, reply, w.runs[r].failed);
    var w' := ApplyCronReply(w, r);
    assert w'.m == m && w'.runs == w.runs[r := RunAt(p)];
    RepliedWeigh(Cost(sub), w.m, job, reply, w.runs[r].failed);
    SumRunsUpdate(Unpaid(sub), w.runs, r, RunAt(p));
  }

  lemma BookedCronReply(w: World, r: nat, money: int, sub: SubAccount)
    requires Booked(w, money, sub) && Enabled(w, CronReply(r))
    ensures Booked(ApplyCronReply(w, r), money, sub)
  {
    OwedAfterReply(w, r, sub);
    LostAfterReply(w, r, sub);
  }

  lemma BookedDelete(w: World, index: Index, recipient: Account, owed: nat, money: int, sub: SubAccount)
    requires Booked(w, money, sub)
    ensures Booked(Apply(w, DeleteJobs(index, recipient, owed)), money, sub)
  {
    KeepWeigh(Cost(sub), w.m.queue, index, recipient, owed);
    WeighAppend(Cost(sub), Dropped(w.m.queue, index, recipient, owed), w.past.deleted);
  }

  lemma BookedOther(w: World, s: Step, money: int, sub: SubAccount)
    requires Booked(w, money, sub) && Enabled(w, s) && !MovesJobs(s)
    ensures Booked(Apply(w, s), if s.Deposit? && s.sub == sub then money + s.amount else money, sub)
  {
    OtherStepsKeepJobs(w, s);
    BankAfter(w, s, sub);
  }

  lemma BankAfter(w: World, s: Step, sub: SubAccount)
    requires Enabled(w, s) && !MovesJobs(s)
    ensures Balance(Apply(w, s).bank, sub)
         == Balance(w.bank, sub) + if s.Deposit? && s.sub == sub then s.amount else 0
  {
  }

  lemma BookedStep(w: World, s: Step, money: int, sub: SubAccount)
    requires Booked(w, money, sub) && Enabled(w, s)
    ensures Booked(Apply(w, s), if s.Deposit? && s.sub == sub then money + s.amount else money, sub)
  {
    if !MovesJobs(s) {
      BookedOther(w, s, money, sub);
    } else if s.FinishSettle? {
      BookedFinish(w, s.call, money, sub);
    } else if s.CronBegin? {
      BookedCronBegin(w, money, sub);
    } else if s.LedgerTransfer? {
      BookedLedger(w, s.run, s.reply, money, sub);
    } else if s.CronReply? {
      BookedCronReply(w, s.run, money, sub);
    } else {
      BookedDelete(w, s.index, s.recipient, s.owed, money, sub);
    }
  }

  /** What the books of a state start from: nothing but the balance when nothing is owed, lost or sold. */
  function Opening(w: World, sub: SubAccount): int {
    Balance(w.bank, sub) + Proceeds(w.past.sales, sub) - Owed(w, sub) - Lost(w.past, sub)
  }

  /**
   * The books balance in every state of every run, whatever it starts from: what is owed from a
   * subaccount, what was lost and what was paid in are together what is there and what sales have read.
   */
  lemma {:induction false} BooksBalance(ws: seq<World>, steps: seq<Step>, i: nat, sub: SubAccount)
    requires IsRun(ws, steps) && i <= |steps|
    ensures Booked(ws[i], Opening(ws[0], sub) + Deposited(steps, i, sub), sub)
  {
    if i > 0 {
      assert Enabled(ws[i - 1], steps[i - 1]) && ws[i] == Apply(ws[i - 1], steps[i - 1]);
      BooksBalance(ws, steps, i - 1, sub);
      BookedStep(ws[i - 1], steps[i - 1], Opening(ws[0], sub) + Deposited(steps, i - 1, sub), sub);
    }
  }

  /**
   * So under any interleaving the balance covers all that is owed exactly when the sales have not
   * read more than was paid in, apart from jobs dropped or deleted.
   */
  lemma CoveredExactlyWhen(ws: seq<World>, steps: seq<Step>, i: nat, sub: SubAccount)
    requires IsRun(ws, steps) && i <= |steps|
    ensures IsCovered(ws[i], sub) <==>
              Proceeds(ws[i].past.sales, sub)
                <= Opening(ws[0], sub) + Deposited(steps, i, sub) + Lost(ws[i].past, sub)
    ensures Idle(ws[0]) ==> Opening(ws[0], sub) == Balance(ws[0].bank, sub) - Owed(ws[0], sub)
  {
    BooksBalance(ws, steps, i, sub);
  }
}
