/**
 * The canister state the marketplace works on, and what each code segment between two awaits does
 * to it. A segment that traps leaves the state as it was when the segment began.
 */
module Market {
  import opened Wrappers
  import opened Bytes
  import opened Accounts
  import opened FeeSplit
  import opened TokenLedger

  const TRANSACTION_TTL := 120_000_000_000
  const TRANSFER_FEE := 10_000
  const DISBURSE_INTERVAL := 5_000_000_000
  const SUBACCOUNT_OFFSET := 4_294_967_296

  type Nat64 = n: int | 0 <= n < MAX64

  type Index = nat

  datatype Fee = Fee(recipient: Account, rate: nat)

  const FEES: seq<Fee> := [
    Fee(Plain("ea6e340b18837860b1d9f353af06d459af55c74d97ef3ac024c2a42778e3e030"), 2000),
    Fee(Plain("c7e461041c0c5800a56b64bb7cefc247abc0bbbb99bd46ff71c64e92d9f5c2f9"), 1000)
  ]

  datatype Listing = Listing(seller: Principal, subaccount: Option<SubAccount>, price: Nat64, locked: Option<int>)

  datatype Transaction = Transaction(
    id: nat,
    token: Index,
    from: Account,
    to: Account,
    seller: Principal,
    price: Nat64,
    initiated: int,
    closed: Option<int>,
    bytes: SubAccount)

  /** A payment the canister owes: from its own subaccount `bytes` to `recipient`. */
  datatype Job = Job(token: Index, recipient: Account, bytes: SubAccount, amount: nat)

  datatype Market = Market(
    tokens: Tokens,
    listings: map<Index, Listing>,
    pending: map<Index, Transaction>,
    transactions: map<nat, Transaction>,
    queue: seq<Job>,
    nextTxId: nat,
    nextSubAccount: nat,
    pendingCount: int,
    lastDisburseCron: int,
    totalVolume: nat,
    lowestPriceSale: nat,
    highestPriceSale: nat)

  // ---- Helpers ----

  function SellerAccount(listing: Listing): Account {
    Derived(listing.seller, listing.subaccount)
  }

  predicate IsLocked(m: Market, index: Index, now: int) {
    && index in m.listings
    && m.listings[index].locked.Some?
    && now <= m.listings[index].locked.value
  }

  /** Byte i is the quotient by 2^(8 * (31 - i)), wrapped to eight bits. */
  function NatToSubAccount(n: nat): (bytes: SubAccount)
    ensures |bytes| == 32
  {
    seq(32, i requires 0 <= i < 32 => n / Pow2(8 * (32 - 1 - i)) % 256)
  }

  // ---- list ----

  datatype Answer = Refused(reason: string) | Trapped | Proceed

  /** `list` up to its await: nothing is written. */
  function ListCheck(m: Market, index: Index, caller: Account, now: int): Answer {
    if index >= |m.tokens| then Trapped
    else if !IsOwner(m.tokens, caller, index) then Refused("Unauthorized")
    else if IsLocked(m, index, now) then Refused("Token is locked.")
    else Proceed
  }

  /** `list` after its await. */
  function ListWrite(m: Market, index: Index, caller: Principal, sub: Option<SubAccount>, price: Option<Nat64>)
    : Market
  {
    match price
    case Some(p) => m.(listings := m.listings[index := Listing(caller, sub, p, None)])
    case None => m.(listings := m.listings - {index})
  }

  // ---- lock ----

  datatype Claim = NoClaim(reason: string) | Claimed(listing: Listing, bytes: SubAccount)

  /** `lock` up to its await: a fresh payment subaccount is taken and the listing is locked. */
  function LockClaim(m: Market, index: Index, price: Nat64, now: int): (Market, Claim) {
    if IsLocked(m, index, now) then (m, NoClaim("Already locked."))
    else if index !in m.listings then (m, NoClaim("No such listing."))
    else if price != m.listings[index].price then (m, NoClaim("Incorrect listing price."))
    else
      var listing := m.listings[index];
      var next := m.nextSubAccount + 1;
      (m.(nextSubAccount := next,
          listings := m.listings[index := listing.(locked := Some(now + TRANSACTION_TTL))]),
       Claimed(listing, NatToSubAccount(SUBACCOUNT_OFFSET + next)))
  }

  function NewTransaction(m: Market, index: Index, listing: Listing, bytes: SubAccount, buyer: Account, now: int)
    : Transaction
  {
    Transaction(m.nextTxId, index, SellerAccount(listing), buyer, listing.seller, listing.price, now, None, bytes)
  }

  /** `lock` after its await: the pending transaction of the token is replaced. */
  function LockRecord(m: Market, index: Index, listing: Listing, bytes: SubAccount, buyer: Account, now: int): Market {
    m.(pending := m.pending[index := NewTransaction(m, index, listing, bytes, buyer, now)],
       nextTxId := m.nextTxId + 1)
  }

  // ---- settle ----

  function Rates(fees: seq<Fee>): (rates: seq<nat>)
    ensures |rates| == |fees|
    ensures forall i :: 0 <= i < |fees| ==> rates[i] == fees[i].rate
  {
    if fees == [] then [] else [fees[0].rate] + Rates(fees[1..])
  }

  /** The fee loop of `settle`: one job per fee, pushed on the front of the queue. */
  function PayFees(fees: seq<Fee>, funds: nat, remaining: nat, queue: seq<Job>, index: Index, bytes: SubAccount)
    : (r: Outcome<(seq<Job>, nat)>)
    ensures r.Value? ==> |r.value.0| == |fees| + |queue| && r.value.0[|fees|..] == queue
  {
    if fees == [] then Value((queue, remaining))
    else if funds * fees[0].rate >= MAX64 then Trap
    else
      var amount := funds * fees[0].rate / RATE_UNIT;
      if amount > remaining then Trap
      else PayFees(fees[1..], funds, remaining - amount,
                   [Job(index, fees[0].recipient, bytes, amount)] + queue, index, bytes)
  }

  function Pay(m: Market, index: Index, tx: Transaction, balance: nat): (r: Outcome<Market>)
    ensures r.Value? ==> |r.value.queue| == |FEES| + 1 + |m.queue| && r.value.queue[|FEES| + 1..] == m.queue
  {
    var reserve := TRANSFER_FEE * (1 + |FEES|);
    if balance < reserve then Trap
    else
      var funds := balance - reserve;
      var (queue, rest) :- PayFees(FEES, funds, funds, m.queue, index, tx.bytes);
      Value(m.(queue := [Job(index, tx.from, tx.bytes, rest)] + queue))
  }

  function Finalize(m: Market, index: Index, tx: Transaction, now: int): Market {
    m.(transactions := m.transactions[tx.id := tx.(closed := Some(now))], pending := m.pending - {index})
  }

  function CountSale(m: Market, price: Nat64): Outcome<Market> {
    if m.totalVolume + price >= MAX64 then Trap
    else Value(m.(totalVolume := m.totalVolume + price,
                  lowestPriceSale := if price < m.lowestPriceSale then price else m.lowestPriceSale,
                  highestPriceSale := if price > m.highestPriceSale then price else m.highestPriceSale))
  }

  /** `settle` from the funds check to its next await, trap by trap. */
  function Sell(m: Market, index: Index, tx: Transaction, balance: nat, now: int): Outcome<Market> {
    var paid :- Pay(m, index, tx, balance);
    var counted :- CountSale(Finalize(paid, index, tx, now), tx.price);
    var tokens :- Transfer(counted.tokens, index, tx.from, tx.to);
    Value(counted.(tokens := tokens, listings := counted.listings - {index}))
  }

  datatype SettleEnd = Insufficient | SaleTrapped | Sold

  /** `settle` after the balance of the transaction's subaccount has been read. */
  function SettleFinish(m: Market, index: Index, tx: Transaction, balance: nat, now: int): (r: (Market, SettleEnd))
    ensures r.1.Sold? ==> |r.0.queue| == |FEES| + 1 + |m.queue| && r.0.queue[|FEES| + 1..] == m.queue
    ensures !r.1.Sold? ==> r.0.queue == m.queue
  {
    if balance < tx.price then
      (if IsLocked(m, index, now) then m else m.(pending := m.pending - {index}), Insufficient)
    else
      match Sell(m, index, tx, balance, now)
      case Trap => (m, SaleTrapped)
      case Value(m') => (m', Sold)
  }

  // ---- EXT transfer ----

  /** The whole of `Ext.transfer` up to its await. */
  function ExtTransfer(m: Market, caller: Account, index: Index, from: Account, to: Account): (Market, Answer) {
    if index >= |m.tokens| then (m, Trapped)
    else if m.tokens[index].None? then (m, Refused("Token owner doesn't exist."))
    else if m.tokens[index].value.owner != from then (m, Refused("Unauthorized"))
    else if from != caller then (m, Refused("Only the owner can do that."))
    else if index in m.listings then (m, Refused("This token is currently listed for sale!"))
    else
      match Transfer(m.tokens, index, caller, to)
      case Trap => (m, Trapped)
      case Value(tokens) => (m.(tokens := tokens), Proceed)
  }

  // ---- disbursements ----

  /** Whether the text form of a recipient decodes as hexadecimal. A hashed identifier always does. */
  predicate Decodable(recipient: Account) {
    match recipient
    case Derived(_, _) => true
    case Plain(text) => |text| % 2 == 0 && forall i :: 0 <= i < |text| ==> IsHexDigit(text[i])
  }

  predicate IsHexDigit(c: char) {
    '0' <= c <= '9' || 'a' <= c <= 'f' || 'A' <= c <= 'F'
  }

  datatype Reply =
    | Paid
    | InsufficientFunds
    | TxDuplicate
    | TxTooOld
    | BadFee
    | TxCreatedInFuture
    | Rejected

  /** The replies after which the job is put aside to be tried again. */
  predicate Retryable(reply: Reply) {
    reply.BadFee? || reply.TxCreatedInFuture? || reply.Rejected?
  }

  datatype Pumped = Pumped(queue: seq<Job>, failed: seq<Job>, next: Option<Job>)

  /** Pop jobs until one can be sent; those whose recipient does not decode go to the failed list. */
  function Pump(queue: seq<Job>, failed: seq<Job>): Pumped {
    if queue == [] then Pumped([], failed, None)
    else if Decodable(queue[0].recipient) then Pumped(queue[1..], failed, Some(queue[0]))
    else Pump(queue[1..], [queue[0]] + failed)
  }

  /** The state at the next suspension of a cron run, or after it, and the run's job and failed list. */
  function Resume(m: Market, p: Pumped): Market {
    match p.next
    case Some(_) => m.(queue := p.queue, pendingCount := m.pendingCount + 1)
    case None => m.(queue := p.failed + p.queue)
  }

  /** The throttle at the head of `cronDisbursements`. */
  predicate CronDue(m: Market, now: int) {
    m.queue != [] && now - m.lastDisburseCron >= DISBURSE_INTERVAL
  }

  function FailedAfter(job: Job, reply: Reply, failed: seq<Job>): seq<Job> {
    if Retryable(reply) then [job] + failed else failed
  }

  function CronReplied(m: Market, job: Job, reply: Reply, failed: seq<Job>): (Market, Pumped) {
    var p := Pump(m.queue, FailedAfter(job, reply, failed));
    (Resume(m.(pendingCount := m.pendingCount - 1), p), p)
  }

  /** The jobs an admin deletion leaves in the queue, in order. */
  function Keep(queue: seq<Job>, token: Index, recipient: Account, amount: nat): seq<Job> {
    if queue == [] then []
    else if queue[0].token != token || queue[0].recipient != recipient || queue[0].amount != amount
    then [queue[0]] + Keep(queue[1..], token, recipient, amount)
    else Keep(queue[1..], token, recipient, amount)
  }

  function Dropped(queue: seq<Job>, token: Index, recipient: Account, amount: nat): seq<Job> {
    if queue == [] then []
    else if queue[0].token != token || queue[0].recipient != recipient || queue[0].amount != amount
    then Dropped(queue[1..], token, recipient, amount)
    else [queue[0]] + Dropped(queue[1..], token, recipient, amount)
  }

  predicate Matches(job: Job, token: Index, recipient: Account, amount: nat) {
    job.token == token && job.recipient == recipient && job.amount == amount
  }

  /** Where in the queue the jobs that do not match stand, in order. */
  function OtherPositions(queue: seq<Job>, token: Index, recipient: Account, amount: nat): (p: seq<nat>)
    ensures forall k :: 0 <= k < |p| ==> p[k] < |queue|
    ensures forall i, j :: 0 <= i < j < |p| ==> p[i] < p[j]
    ensures forall i :: i in p <==> 0 <= i < |queue| && !Matches(queue[i], token, recipient, amount)
    decreases |queue|
  {
    if queue == [] then []
    else
      var last := |queue| - 1;
      var before := OtherPositions(queue[..last], token, recipient, amount);
      if Matches(queue[last], token, recipient, amount) then before else before + [last]
  }

  lemma {:induction false} KeepAppend(a: seq<Job>, b: seq<Job>, token: Index, recipient: Account, amount: nat)
    ensures Keep(a + b, token, recipient, amount)
         == Keep(a, token, recipient, amount) + Keep(b, token, recipient, amount)
  {
    if a == [] {
      assert a + b == b;
    } else {
      assert (a + b)[1..] == a[1..] + b;
      KeepAppend(a[1..], b, token, recipient, amount);
    }
  }

  /** An admin deletion keeps exactly the jobs that do not match, in the order they stood in. */
  lemma {:induction false} KeepsTheOthers(queue: seq<Job>, token: Index, recipient: Account, amount: nat)
    ensures var (kept, p) := (Keep(queue, token, recipient, amount), OtherPositions(queue, token, recipient, amount));
            |kept| == |p| && forall k :: 0 <= k < |p| ==> kept[k] == queue[p[k]]
    decreases |queue|
  {
    if queue != [] {
      var last := |queue| - 1;
      var init := queue[..last];
      KeepsTheOthers(init, token, recipient, amount);
      KeepAppend(init, [queue[last]], token, recipient, amount);
      assert queue == init + [queue[last]];
      assert [queue[last]][1..] == [];
    }
  }

  /** And what it drops are the jobs that match. */
  lemma {:induction false} DropsTheMatching(queue: seq<Job>, token: Index, recipient: Account, amount: nat)
    ensures var dropped := Dropped(queue, token, recipient, amount);
            forall job :: job in dropped <==> job in queue && Matches(job, token, recipient, amount)
  {
    if queue != [] {
      DropsTheMatching(queue[1..], token, recipient, amount);
      assert queue == [queue[0]] + queue[1..];
    }
  }
}
