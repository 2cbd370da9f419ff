/** The marketplace factory: its fields, and its methods segment by segment. */
module Entrepot {
  import opened Wrappers
  import opened Accounts
  import opened FeeSplit
  import opened Market
  import Tokens

  // ---- A cron run that nothing interrupts ----

  /** The job is put aside: its recipient does not decode, or the ledger's reply allows a retry. */
  predicate Fails(job: Job, reply: Reply) {
    !Decodable(job.recipient) || Retryable(reply)
  }

  /** The failing jobs, last processed first. */
  function RetryOrder(queue: seq<Job>, replies: seq<Reply>): seq<Job>
    requires |replies| >= |queue|
    decreases |queue|
  {
    if queue == [] then []
    else RetryOrder(queue[1..], replies[1..]) + if Fails(queue[0], replies[0]) then [queue[0]] else []
  }

  /** Between rounds: the job in hand and the queue are what is left, and what has failed is accounted for. */
  predicate Underway(queue: seq<Job>, replies: seq<Reply>, rounds: nat, job: Option<Job>, rest: seq<Job>,
                     failed: seq<Job>)
  {
    && rounds <= |queue| <= |replies|
    && (if job.Some? then [job.value] else []) + rest == queue[rounds..]
    && (job.None? ==> rest == [])
    && RetryOrder(queue[rounds..], replies[rounds..]) + failed == RetryOrder(queue, replies)
  }

  lemma Round(queue: seq<Job>, replies: seq<Reply>, rounds: nat, job: Job, rest: seq<Job>, failed: seq<Job>)
    requires Underway(queue, replies, rounds, Some(job), rest, failed)
    ensures rounds < |queue|
    ensures Underway(queue, replies, rounds + 1, if rest == [] then None else Some(rest[0]),
                     if rest == [] then [] else rest[1..],
                     if Fails(job, replies[rounds]) then [job] + failed else failed)
  {
    assert queue[rounds..] != [];
    var (q, r) := (queue[rounds..], replies[rounds..]);
    assert q[1..] == queue[rounds + 1..] && r[1..] == replies[rounds + 1..];
    assert q[0] == job && r[0] == replies[rounds] && q[1..] == rest;
    if Fails(job, replies[rounds]) {
      assert RetryOrder(q, r) + failed == RetryOrder(q[1..], r[1..]) + ([job] + failed);
    } else {
      assert RetryOrder(q, r) + failed == RetryOrder(q[1..], r[1..]) + failed;
    }
  }

  lemma Started(queue: seq<Job>, replies: seq<Reply>)
    requires queue != [] && |queue| <= |replies|
    ensures Underway(queue, replies, 0, Some(queue[0]), queue[1..], [])
  {
    assert queue[0..] == queue && replies[0..] == replies;
  }

  lemma Finished(queue: seq<Job>, replies: seq<Reply>, rounds: nat, rest: seq<Job>, failed: seq<Job>)
    requires Underway(queue, replies, rounds, None, rest, failed)
    ensures rounds == |queue| && failed + rest == RetryOrder(queue, replies)
  {
    assert queue[rounds..] == [];
  }

  /** Its recipient does not decode, or the fee was wrong, the transfer too early, or the call rejected. */
  predicate PutAside(job: Job, reply: Reply) {
    !Decodable(job.recipient) || reply.BadFee? || reply.TxCreatedInFuture? || reply.Rejected?
  }

  /** Exactly these jobs are to be retried. */
  lemma {:induction false} RetryOrderSelects(queue: seq<Job>, replies: seq<Reply>, job: Job)
    requires |replies| >= |queue|
    ensures job in RetryOrder(queue, replies) <==>
              exists i :: 0 <= i < |queue| && queue[i] == job && PutAside(job, replies[i])
    ensures |RetryOrder(queue, replies)| <= |queue|
  {
    if queue != [] {
      var rest := RetryOrder(queue[1..], replies[1..]);
      RetryOrderSelects(queue[1..], replies[1..], job);
      assert forall i :: 0 < i < |queue| ==> queue[i] == queue[1..][i - 1] && replies[i] == replies[1..][i - 1];
      if job in rest {
        var i :| 0 <= i < |queue[1..]| && queue[1..][i] == job && PutAside(job, replies[1..][i]);
        assert queue[i + 1] == job && PutAside(job, replies[i + 1]);
      }
    }
  }

  class Factory {
    const tokens: Tokens.Factory
    var listings: map<Index, Listing>
    var pendingTransactions: map<Index, Transaction>
    var nextTxId: nat
    var transactions: map<nat, Transaction>
    var nextSubAccount: nat
    var totalVolume: nat
    var lowestPriceSale: nat
    var highestPriceSale: nat
    var pendingDisbursements: seq<Job>
    var lastDisburseCron: int
    var pendingCount: int

    /** The state as the segment functions see it. */
    ghost function Model(): Market
      reads this, tokens.ledger
    {
      Market(tokens.ledger[..], listings, pendingTransactions, transactions, pendingDisbursements, nextTxId,
             nextSubAccount, pendingCount, lastDisburseCron, totalVolume, lowestPriceSale, highestPriceSale)
    }

    /** From stable state. The id counter is not part of it and starts at 0. */
    constructor (tokens: Tokens.Factory, listings: map<Index, Listing>, pending: map<Index, Transaction>,
                 transactions: map<nat, Transaction>, nextSubAccount: nat, totalVolume: nat, lowestPriceSale: nat,
                 highestPriceSale: nat, pendingDisbursements: seq<Job>)
      ensures this.tokens == tokens
      ensures Model() == Market(tokens.ledger[..], listings, pending, transactions, pendingDisbursements, 0,
                                nextSubAccount, 0, 0, totalVolume, lowestPriceSale, highestPriceSale)
    {
      this.tokens := tokens;
      this.listings := listings;
      this.pendingTransactions := pending;
      this.nextTxId := 0;
      this.transactions := transactions;
      this.nextSubAccount := nextSubAccount;
      this.totalVolume := totalVolume;
      this.lowestPriceSale := lowestPriceSale;
      this.highestPriceSale := highestPriceSale;
      this.pendingDisbursements := pendingDisbursements;
      this.lastDisburseCron := 0;
      this.pendingCount := 0;
    }

    // ---- Internals ----

    predicate Locked(index: Index, now: int)
      reads this
    {
      && index in listings
      && listings[index].locked.Some?
      && now <= listings[index].locked.value
    }

    method GetNextSubAccount() returns (bytes: SubAccount)
      modifies this`nextSubAccount
      ensures nextSubAccount == old(nextSubAccount) + 1
      ensures bytes == NatToSubAccount(SUBACCOUNT_OFFSET + nextSubAccount)
    {
      nextSubAccount := nextSubAccount + 1;
      bytes := NatToSubAccount(SUBACCOUNT_OFFSET + nextSubAccount);
    }

    method AddDisbursement(job: Job)
      modifies this`pendingDisbursements
      ensures pendingDisbursements == [job] + old(pendingDisbursements)
    {
      pendingDisbursements := [job] + pendingDisbursements;
    }

    method PopDisbursement() returns (job: Option<Job>)
      modifies this`pendingDisbursements
      ensures old(pendingDisbursements) == [] ==> job == None && pendingDisbursements == []
      ensures old(pendingDisbursements) != [] ==>
                job == Some(old(pendingDisbursements)[0]) && pendingDisbursements == old(pendingDisbursements)[1..]
    {
      if pendingDisbursements == [] {
        return None;
      }
      job := Some(pendingDisbursements[0]);
      pendingDisbursements := pendingDisbursements[1..];
    }

    // ---- list ----

    method ListBegin(index: Index, caller: Account, now: int) returns (answer: Answer)
      ensures answer == ListCheck(Model(), index, caller, now)
    {
      if index >= tokens.ledger.Length {
        return Trapped;
      }
      if tokens.ledger[index].None? || tokens.ledger[index].value.owner != caller {
        return Refused("Unauthorized");
      }
      if Locked(index, now) {
        return Refused("Token is locked.");
      }
      answer := Proceed;
    }

    method ListResume(index: Index, caller: Principal, sub: Option<SubAccount>, price: Option<Nat64>)
      modifies this`listings
      ensures Model() == ListWrite(old(Model()), index, caller, sub, price)
    {
      match price {
        case Some(p) => listings := listings[index := Listing(caller, sub, p, None)];
        case None => listings := listings - {index};
      }
    }

    // ---- lock ----

    method LockBegin(index: Index, price: Nat64, now: int) returns (claim: Claim)
      modifies this`listings, this`nextSubAccount
      ensures (Model(), claim) == LockClaim(old(Model()), index, price, now)
    {
      if Locked(index, now) {
        return NoClaim("Already locked.");
      }
      if index !in listings {
        return NoClaim("No such listing.");
      }
      var listing := listings[index];
      if price != listing.price {
        return NoClaim("Incorrect listing price.");
      }
      var bytes := GetNextSubAccount();
      listings := listings[index := Listing(listing.seller, listing.subaccount, listing.price,
                                            Some(now + TRANSACTION_TTL))];
      claim := Claimed(listing, bytes);
    }

    method LockResume(index: Index, listing: Listing, bytes: SubAccount, buyer: Account, now: int)
      modifies this`pendingTransactions, this`nextTxId
      ensures Model() == LockRecord(old(Model()), index, listing, bytes, buyer, now)
    {
      pendingTransactions := pendingTransactions[index :=
        Transaction(nextTxId, index, Derived(listing.seller, listing.subaccount), buyer, listing.seller, listing.price,
                    now, None, bytes)];
      nextTxId := nextTxId + 1;
    }

    // ---- settle ----

    method SettleBegin(index: Index) returns (tx: Option<Transaction>)
      ensures tx == if index in Model().pending then Some(Model().pending[index]) else None
    {
      if index in pendingTransactions {
        tx := Some(pendingTransactions[index]);
      } else {
        tx := None;
      }
    }

    /** The fee loop: the remaining funds after all fees, or a trap. */
    method PayFeeRecipients(funds: nat, index: Index, bytes: SubAccount) returns (rest: Outcome<nat>)
      modifies this`pendingDisbursements
      ensures match PayFees(FEES, funds, funds, old(pendingDisbursements), index, bytes)
              case Trap => rest.Trap?
              case Value((queue, remaining)) => pendingDisbursements == queue && rest == Value(remaining)
    {
      var remaining: nat := funds;
      var i := 0;
      while i < |FEES|
        invariant 0 <= i <= |FEES|
        invariant PayFees(FEES, funds, funds, old(pendingDisbursements), index, bytes)
               == PayFees(FEES[i..], funds, remaining, pendingDisbursements, index, bytes)
      {
        var fee := FEES[i];
        assert FEES[i..][0] == fee && FEES[i..][1..] == FEES[i + 1..];
        if funds * fee.rate >= MAX64 {
          return Trap;
        }
        var amount := funds * fee.rate / RATE_UNIT;
        AddDisbursement(Job(index, fee.recipient, bytes, amount));
        if amount > remaining {
          return Trap;
        }
        remaining := remaining - amount;
        i := i + 1;
      }
      rest := Value(remaining);
    }

    /**
     * `settle` once the balance is known, up to its next await. A trap rolls back every write of the
     * segment: the fields are put back as they were.
     */
    method SettleResume(index: Index, tx: Transaction, balance: nat, now: int) returns (end: SettleEnd)
      modifies this, tokens.ledger
      ensures (Model(), end) == SettleFinish(old(Model()), index, tx, balance, now)
    {
      if balance < tx.price {
        if !Locked(index, now) {
          pendingTransactions := pendingTransactions - {index};
        }
        return Insufficient;
      }
      var before := (listings, pendingTransactions, transactions, pendingDisbursements);
      var stats := (totalVolume, lowestPriceSale, highestPriceSale);
      var sold := Sale(index, tx, balance, now);
      if sold.Trap? {
        listings, pendingTransactions, transactions, pendingDisbursements := before.0, before.1, before.2, before.3;
        totalVolume, lowestPriceSale, highestPriceSale := stats.0, stats.1, stats.2;
        end := SaleTrapped;
      } else {
        end := Sold;
      }
    }

    /** Queue the payments of a sale. */
    method SchedulePayments(index: Index, tx: Transaction, balance: nat) returns (r: Outcome<()>)
      modifies this`pendingDisbursements
      ensures match Pay(old(Model()), index, tx, balance)
              case Trap => r.Trap?
              case Value(m) => r.Value? && Model() == m
    {
      if balance < TRANSFER_FEE * (1 + |FEES|) {
        return Trap;
      }
      var funds := balance - TRANSFER_FEE * (1 + |FEES|);
      var rest := PayFeeRecipients(funds, index, tx.bytes);
      if rest.Trap? {
        return Trap;
      }
      AddDisbursement(Job(index, tx.from, tx.bytes, rest.value));
      r := Value(());
    }

    /** Make the transaction final and count it. */
    method RecordSale(index: Index, tx: Transaction, now: int) returns (r: Outcome<()>)
      modifies this`transactions, this`pendingTransactions
      modifies this`totalVolume, this`lowestPriceSale, this`highestPriceSale
      ensures match CountSale(Finalize(old(Model()), index, tx, now), tx.price)
              case Trap => r.Trap?
              case Value(m) => r.Value? && Model() == m
    {
      transactions := transactions[tx.id := Transaction(tx.id, tx.token, tx.from, tx.to, tx.seller, tx.price,
                                                        tx.initiated, Some(now), tx.bytes)];
      pendingTransactions := pendingTransactions - {index};
      if totalVolume + tx.price >= MAX64 {
        return Trap;
      }
      totalVolume := totalVolume + tx.price;
      lowestPriceSale := if tx.price < lowestPriceSale then tx.price else lowestPriceSale;
      highestPriceSale := if tx.price > highestPriceSale then tx.price else highestPriceSale;
      r := Value(());
    }

    /** The writes of a sale in their order. When one traps, those before it are still in place. */
    method Sale(index: Index, tx: Transaction, balance: nat, now: int) returns (sold: Outcome<()>)
      modifies this, tokens.ledger
      ensures match Sell(old(Model()), index, tx, balance, now)
              case Value(m) => sold.Value? && Model() == m
              case Trap =>
                && sold.Trap?
                && tokens.ledger[..] == old(tokens.ledger[..])
                && nextTxId == old(nextTxId) && nextSubAccount == old(nextSubAccount)
                && pendingCount == old(pendingCount) && lastDisburseCron == old(lastDisburseCron)
    {
      var paid := SchedulePayments(index, tx, balance);
      if paid.Trap? {
        return Trap;
      }
      var recorded := RecordSale(index, tx, now);
      if recorded.Trap? {
        return Trap;
      }
      var moved := tokens.Transfer(index, tx.from, tx.to);
      if moved.Trap? {
        return Trap;
      }
      listings := listings - {index};
      sold := Value(());
    }

    // ---- Disbursements ----

    /** Pop until a job can be sent. A job whose recipient does not decode is put aside at once. */
    method Advance(failed: seq<Job>) returns (p: Pumped)
      modifies this`pendingDisbursements, this`pendingCount
      ensures p == Pump(old(pendingDisbursements), failed)
      ensures Model() == Resume(old(Model()), p)
    {
      var aside := failed;
      var job := PopDisbursement();
      while job.Some?
        invariant pendingCount == old(pendingCount)
        invariant Pump(old(pendingDisbursements), failed)
               == Pump((if job.Some? then [job.value] else []) + pendingDisbursements, aside)
        invariant job.None? ==> pendingDisbursements == []
        decreases |pendingDisbursements|, job.Some?
      {
        pendingCount := pendingCount + 1;
        assert ([job.value] + pendingDisbursements)[1..] == pendingDisbursements;
        if Decodable(job.value.recipient) {
          return Pumped(pendingDisbursements, aside, job);
        }
        aside := [job.value] + aside;
        job := PopDisbursement();
        pendingCount := pendingCount - 1;
      }
      p := Pumped([], aside, None);
      pendingDisbursements := aside + pendingDisbursements;
    }

    /** The first segment of a cron run: nothing, when the queue is empty or the last run is too recent. */
    method CronBegin(now: int) returns (p: Option<Pumped>)
      modifies this`pendingDisbursements, this`pendingCount, this`lastDisburseCron
      ensures !CronDue(old(Model()), now) ==> p == None && Model() == old(Model())
      ensures CronDue(old(Model()), now) ==>
                && p == Some(Pump(old(pendingDisbursements), []))
                && Model() == Resume(old(Model()).(lastDisburseCron := now), p.value)
    {
      if pendingDisbursements == [] {
        return None;
      }
      if now - lastDisburseCron < DISBURSE_INTERVAL {
        return None;
      }
      lastDisburseCron := now;
      var pumped := Advance([]);
      p := Some(pumped);
    }

    /** The segment of a cron run after the ledger has answered it. */
    method CronReply(job: Job, reply: Reply, failed: seq<Job>) returns (p: Pumped)
      modifies this`pendingDisbursements, this`pendingCount
      ensures (Model(), p) == CronReplied(old(Model()), job, reply, failed)
    {
      var aside := failed;
      match reply {
        case Paid =>
        case InsufficientFunds =>
        case TxDuplicate =>
        case TxTooOld =>
        case BadFee => aside := [job] + aside;
        case TxCreatedInFuture => aside := [job] + aside;
        case Rejected => aside := [job] + aside;
      }
      pendingCount := pendingCount - 1;
      p := Advance(aside);
    }

    /**
     * A whole cron run that nothing else interrupts; `replies` are the ledger's answers to the jobs
     * in turn. However many transfers fail it goes round once for each job it found, and leaves in
     * the queue exactly the jobs to retry, the last processed first.
     */
    method CronDisbursements(now: int, replies: seq<Reply>) returns (rounds: nat)
      requires |replies| >= |pendingDisbursements|
      modifies this`pendingDisbursements, this`pendingCount, this`lastDisburseCron
      ensures !CronDue(old(Model()), now) ==> rounds == 0 && Model() == old(Model())
      ensures CronDue(old(Model()), now) ==>
                && rounds == |old(pendingDisbursements)|
                && Model() == old(Model()).(queue := RetryOrder(old(pendingDisbursements), replies),
                                            lastDisburseCron := now)
    {
      rounds := 0;
      if pendingDisbursements == [] {
        return;
      }
      if now - lastDisburseCron < DISBURSE_INTERVAL {
        return;
      }
      lastDisburseCron := now;
      var failed: seq<Job> := [];
      ghost var queue := pendingDisbursements;
      Started(queue, replies);
      var job := PopDisbursement();
      while job.Some?
        invariant pendingCount == old(pendingCount) && lastDisburseCron == now
        invariant Underway(queue, replies, rounds, job, pendingDisbursements, failed)
        decreases |queue| - rounds
      {
        Round(queue, replies, rounds, job.value, pendingDisbursements, failed);
        pendingCount := pendingCount + 1;
        failed := AnswerJob(job.value, replies[rounds], failed);
        pendingCount := pendingCount - 1;
        rounds := rounds + 1;
        job := PopDisbursement();
      }
      Finished(queue, replies, rounds, pendingDisbursements, failed);
      pendingDisbursements := failed + pendingDisbursements;
    }

    /** Whether the job is put aside: at once when its recipient does not decode, or by the ledger's reply. */
    method AnswerJob(job: Job, reply: Reply, failed: seq<Job>) returns (aside: seq<Job>)
      ensures aside == if Fails(job, reply) then [job] + failed else failed
    {
      aside := failed;
      if !Decodable(job.recipient) {
        return [job] + failed;
      }
      match reply {
        case Paid =>
        case InsufficientFunds =>
        case TxDuplicate =>
        case TxTooOld =>
        case BadFee => aside := [job] + failed;
        case TxCreatedInFuture => aside := [job] + failed;
        case Rejected => aside := [job] + failed;
      }
    }

    /** Drop the queued jobs an admin names. Traps for anyone else. */
    method DeleteDisbursementJob(admin: bool, token: Index, address: Account, amount: nat) returns (r: Outcome<()>)
      modifies this`pendingDisbursements
      ensures r.Value? <==> admin
      ensures Model() == if admin then old(Model()).(queue := Keep(old(pendingDisbursements), token, address, amount))
                         else old(Model())
    {
      if !admin {
        return Trap;
      }
      pendingDisbursements := Keep(pendingDisbursements, token, address, amount);
      r := Value(());
    }

    method DeleteListing(admin: bool, index: Index) returns (r: Outcome<()>)
      modifies this`listings
      ensures r.Value? <==> admin
      ensures Model() == if admin then old(Model()).(listings := old(listings) - {index}) else old(Model())
    {
      if !admin {
        return Trap;
      }
      listings := listings - {index};
      r := Value(());
    }
  }
}
