/**
 * The canister among its callers and the ICP ledger. Calls are suspended at every await, and any
 * other segment may run before they go on. A run of the system is a list of steps from a start.
 */
module World {
  import opened Wrappers
  import opened Accounts
  import opened TokenLedger
  import opened Market

  /** Why `settle` is running: called directly, or by `_canSettle` on behalf of `list` or `lock`. */
  datatype Intent =
    | Direct
    | ForList(caller: Principal, sub: Option<SubAccount>, price: Option<Nat64>)
    | ForLock(listing: Listing, bytes: SubAccount, buyer: Account)

  /** Where a suspended call will go on. */
  datatype Phase =
    | Checking                                    // _canSettle has been called
    | Entering                                    // _canSettle has called settle
    | Asked(tx: Transaction)                      // settle has asked for the balance
    | Answered(tx: Transaction, balance: nat)     // the ledger has read the balance
    | Settled(sold: bool)                         // settle has returned to _canSettle
    | Ready(ok: bool)                             // _canSettle has returned to list or lock
    | Done

  datatype Call = Call(index: Index, intent: Intent, phase: Phase)

  /** The transfer a cron run waits for. */
  datatype Flight =
    | Sent(job: Job)
    | Replied(job: Job, reply: Reply)
    | Landed

  datatype CronRun = CronRun(flight: Flight, failed: seq<Job>)

  datatype Sale = Sale(index: Index, tx: Transaction, balance: nat)

  /** What has happened so far. Nothing in the canister reads it. */
  datatype History = History(
    created: seq<Transaction>,
    sales: seq<Sale>,
    queued: seq<Job>,
    completed: seq<Job>,
    dropped: seq<Job>,
    deleted: seq<Job>)

  datatype World = World(
    m: Market,
    now: int,
    bank: map<SubAccount, nat>,   // ICP ledger: balances of this canister's subaccounts
    calls: seq<Call>,
    runs: seq<CronRun>,
    past: History)

  function Balance(bank: map<SubAccount, nat>, sub: SubAccount): nat {
    if sub in bank then bank[sub] else 0
  }

  datatype Step =
    | Tick(duration: nat)
    | Deposit(sub: SubAccount, amount: nat)
    | BeginList(index: Index, caller: Principal, from: Option<SubAccount>, price: Option<Nat64>)
    | BeginLock(index: Index, asked: Nat64, buyer: Account)
    | BeginSettle(index: Index)
    | CanSettle(call: nat)
    | EnterSettle(call: nat)
    | ReadBalance(call: nat)
    | FinishSettle(call: nat)
    | ReturnToCanSettle(call: nat)
    | Continue(call: nat)
    | Abort(call: nat)
    | TransferToken(index: Index, sender: Account, giver: Account, receiver: Account)
    | MintToken(receiver: Account)
    | CronBegin
    | LedgerTransfer(run: nat, reply: Reply)
    | CronReply(run: nat)
    | DeleteJobs(index: Index, recipient: Account, owed: nat)
    | DeleteListing(index: Index)

  /** The steps that move one suspended call on. */
  predicate IsCallStep(s: Step) {
    || s.CanSettle? || s.EnterSettle? || s.ReadBalance? || s.FinishSettle?
    || s.ReturnToCanSettle? || s.Continue? || s.Abort?
  }

  /** The ledger debits amount plus fee, and refuses for lack of funds exactly when it cannot. */
  predicate Covered(bank: map<SubAccount, nat>, job: Job) {
    Balance(bank, job.bytes) >= job.amount + TRANSFER_FEE
  }

  predicate Enabled(w: World, s: Step) {
    match s
    case Tick(_) => true
    case Deposit(_, _) => true
    case BeginList(index, caller, from, _) => ListCheck(w.m, index, Derived(caller, from), w.now).Proceed?
    case BeginLock(index, asked, _) => LockClaim(w.m, index, asked, w.now).1.Claimed?
    case BeginSettle(index) => index in w.m.pending
    case CanSettle(c) => c < |w.calls| && w.calls[c].phase.Checking?
    case EnterSettle(c) => c < |w.calls| && w.calls[c].phase.Entering?
    case ReadBalance(c) => c < |w.calls| && w.calls[c].phase.Asked?
    case FinishSettle(c) => c < |w.calls| && w.calls[c].phase.Answered?
    case ReturnToCanSettle(c) => c < |w.calls| && w.calls[c].phase.Settled?
    case Continue(c) => c < |w.calls| && w.calls[c].phase.Ready?
    case Abort(c) => c < |w.calls| && !w.calls[c].phase.Done?
    case TransferToken(index, sender, giver, receiver) => ExtTransfer(w.m, sender, index, giver, receiver).1.Proceed?
    case MintToken(_) => NextMint(w.m.tokens).Some?
    case CronBegin => CronDue(w.m, w.now)
    case LedgerTransfer(r, reply) =>
      && r < |w.runs| && w.runs[r].flight.Sent?
      && (reply.Paid? ==> Covered(w.bank, w.runs[r].flight.job))
      && (reply.InsufficientFunds? ==> !Covered(w.bank, w.runs[r].flight.job))
    case CronReply(r) => r < |w.runs| && w.runs[r].flight.Replied?
    case DeleteJobs(_, _, _) => true
    case DeleteListing(_) => true
  }

  function Apply(w: World, s: Step): World
    requires Enabled(w, s)
  {
    match s
    case Tick(duration) => w.(now := w.now + duration)
    case Deposit(sub, amount) => w.(bank := w.bank[sub := Balance(w.bank, sub) + amount])
    case BeginList(index, caller, from, price) =>
      w.(calls := w.calls + [Call(index, ForList(caller, from, price), Checking)])
    case BeginLock(index, asked, buyer) => ApplyLock(w, index, asked, buyer)
    case BeginSettle(index) => w.(calls := w.calls + [Call(index, Direct, Asked(w.m.pending[index]))])
    case TransferToken(index, sender, giver, receiver) =>
      w.(m := ExtTransfer(w.m, sender, index, giver, receiver).0)
    case MintToken(receiver) => w.(m := w.m.(tokens := Mint(w.m.tokens, receiver, w.now).0))
    case CronBegin => ApplyCronBegin(w)
    case LedgerTransfer(r, reply) => ApplyLedger(w, r, reply)
    case CronReply(r) => ApplyCronReply(w, r)
    case DeleteJobs(index, recipient, owed) =>
      w.(m := w.m.(queue := Keep(w.m.queue, index, recipient, owed)),
         past := w.past.(deleted := Dropped(w.m.queue, index, recipient, owed) + w.past.deleted))
    case DeleteListing(index) => w.(m := w.m.(listings := w.m.listings - {index}))
    case _ => ApplyCall(w, s)
  }

  function ApplyLock(w: World, index: Index, asked: Nat64, buyer: Account): World
    requires LockClaim(w.m, index, asked, w.now).1.Claimed?
  {
    var (m, claim) := LockClaim(w.m, index, asked, w.now);
    w.(m := m, calls := w.calls + [Call(index, ForLock(claim.listing, claim.bytes, buyer), Checking)])
  }

  function CallOf(s: Step): nat
    requires IsCallStep(s)
  {
    match s
    case CanSettle(c) => c
    case EnterSettle(c) => c
    case ReadBalance(c) => c
    case FinishSettle(c) => c
    case ReturnToCanSettle(c) => c
    case Continue(c) => c
    case Abort(c) => c
  }

  function Move(w: World, c: nat, phase: Phase): World
    requires c < |w.calls|
  {
    w.(calls := w.calls[c := w.calls[c].(phase := phase)])
  }

  function ApplyCall(w: World, s: Step): World
    requires Enabled(w, s) && IsCallStep(s)
  {
    var c := CallOf(s);
    var call := w.calls[c];
    match s
    case CanSettle(_) => Move(w, c, if call.index in w.m.pending then Entering else Ready(true))
    case EnterSettle(_) =>
      Move(w, c, if call.index in w.m.pending then Asked(w.m.pending[call.index]) else Settled(false))
    case ReadBalance(_) => Move(w, c, Answered(call.phase.tx, Balance(w.bank, call.phase.tx.bytes)))
    case FinishSettle(_) => ApplyFinish(w, c)
    case ReturnToCanSettle(_) => Move(w, c, Ready(!call.phase.sold && call.index in w.m.listings))
    case Continue(_) => ApplyContinue(w, c)
    case Abort(_) => Move(w, c, Done)
  }

  /** A trap ends the whole call, with the segment undone; a sale is final before the last await. */
  function ApplyFinish(w: World, c: nat): World
    requires c < |w.calls| && w.calls[c].phase.Answered?
  {
    var call := w.calls[c];
    var (tx, balance) := (call.phase.tx, call.phase.balance);
    var (m, end) := SettleFinish(w.m, call.index, tx, balance, w.now);
    var back := if call.intent.Direct? || end.SaleTrapped? then Done else Settled(end.Sold?);
    var moved := Move(w, c, back).(m := m);
    if end.Sold? then
      moved.(past := w.past.(sales := w.past.sales + [Sale(call.index, tx, balance)],
                             queued := m.queue[..|FEES| + 1] + w.past.queued))
    else moved
  }

  function ApplyContinue(w: World, c: nat): World
    requires c < |w.calls| && w.calls[c].phase.Ready?
  {
    var call := w.calls[c];
    var done := Move(w, c, Done);
    if !call.phase.ok then done
    else
      match call.intent
      case Direct => done
      case ForList(caller, sub, price) => done.(m := ListWrite(w.m, call.index, caller, sub, price))
      case ForLock(listing, bytes, buyer) =>
        done.(m := LockRecord(w.m, call.index, listing, bytes, buyer, w.now),
              past := w.past.(created := w.past.created
                                         + [NewTransaction(w.m, call.index, listing, bytes, buyer, w.now)]))
  }

  function RunAt(p: Pumped): CronRun {
    match p.next
    case Some(job) => CronRun(Sent(job), p.failed)
    case None => CronRun(Landed, [])
  }

  function ApplyCronBegin(w: World): World {
    var p := Pump(w.m.queue, []);
    w.(m := Resume(w.m.(lastDisburseCron := w.now), p), runs := w.runs + [RunAt(p)])
  }

  function ApplyLedger(w: World, r: nat, reply: Reply): World
    requires Enabled(w, LedgerTransfer(r, reply))
  {
    var job := w.runs[r].flight.job;
    var replied := w.(runs := w.runs[r := w.runs[r].(flight := Replied(job, reply))]);
    if reply.Paid? then
      replied.(bank := w.bank[job.bytes := Balance(w.bank, job.bytes) - job.amount - TRANSFER_FEE])
    else replied
  }

  function ApplyCronReply(w: World, r: nat): World
    requires Enabled(w, CronReply(r))
  {
    var (job, reply) := (w.runs[r].flight.job, w.runs[r].flight.reply);
    var (m, p) := CronReplied(w.m, job, reply, w.runs[r].failed);
    w.(m := m,
       runs := w.runs[r := RunAt(p)],
       past := if reply.Paid? then w.past.(completed := [job] + w.past.completed)
               else if Retryable(reply) then w.past
               else w.past.(dropped := [job] + w.past.dropped))
  }

  /** Each state of the run follows from the one before by the matching step. */
  ghost predicate IsRun(ws: seq<World>, steps: seq<Step>) {
    && |ws| == |steps| + 1
    && forall i {:trigger steps[i]} :: 0 <= i < |steps| ==>
         Enabled(ws[i], steps[i]) && ws[i + 1] == Apply(ws[i], steps[i])
  }
}
