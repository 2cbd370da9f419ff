/** A sale from beginning to end: list, lock, pay and settle, with nothing in between. */
module Purchase {
  import opened Wrappers
  import opened Accounts
  import opened Market
  import opened World
  import opened Serial
  import opened Sales
  import opened Plays
  import opened Freshness

  function ListSteps(w: World, index: Index, seller: Principal, sub: Option<SubAccount>, price: Nat64): seq<Step> {
    [BeginList(index, seller, sub, Some(price)), CanSettle(|w.calls|), Continue(|w.calls|)]
  }

  /** The state after a `list` call by the owner. */
  function Listed(w: World, index: Index, seller: Principal, sub: Option<SubAccount>, price: Nat64): World {
    w.(m := w.m.(listings := w.m.listings[index := Listing(seller, sub, price, None)]),
       calls := w.calls + [Call(index, ForList(seller, sub, Some(price)), Done)])
  }

  lemma ListCompletes(w: World, index: Index, seller: Principal, sub: Option<SubAccount>, price: Nat64)
    requires OwnerAt(w.m.tokens, index) == Some(Derived(seller, sub))
    requires !IsLocked(w.m, index, w.now) && index !in w.m.pending
    ensures Play(w, ListSteps(w, index, seller, sub, price)) == Some(Listed(w, index, seller, sub, price))
  {
    var c := |w.calls|;
    var begin := BeginList(index, seller, sub, Some(price));
    var w1 := Apply(w, begin);
    assert w1 == w.(calls := w.calls + [Call(index, ForList(seller, sub, Some(price)), Checking)]);
    var w2 := Apply(w1, CanSettle(c));
    assert w2 == w.(calls := w.calls + [Call(index, ForList(seller, sub, Some(price)), Ready(true))]);
    var w3 := Apply(w2, Continue(c));
    assert w3.calls == Listed(w, index, seller, sub, price).calls;
    PlayThree(w, begin, CanSettle(c), Continue(c));
  }

  function LockSteps(w: World, index: Index, price: Nat64, buyer: Account): seq<Step> {
    [BeginLock(index, price, buyer), CanSettle(|w.calls|), Continue(|w.calls|)]
  }

  function PaymentBytes(w: World): SubAccount {
    NatToSubAccount(SUBACCOUNT_OFFSET + (w.m.nextSubAccount + 1))
  }

  /** The transaction a lock creates for a listing. */
  function Bought(w: World, index: Index, listing: Listing, buyer: Account): Transaction {
    Transaction(w.m.nextTxId, index, SellerAccount(listing), buyer, listing.seller, listing.price, w.now, None,
                PaymentBytes(w))
  }

  /** The state after a `lock` call. */
  function LockedFor(w: World, index: Index, listing: Listing, buyer: Account): World {
    var tx := Bought(w, index, listing, buyer);
    w.(m := w.m.(listings := w.m.listings[index := listing.(locked := Some(w.now + TRANSACTION_TTL))],
                 pending := w.m.pending[index := tx],
                 nextTxId := w.m.nextTxId + 1,
                 nextSubAccount := w.m.nextSubAccount + 1),
       calls := w.calls + [Call(index, ForLock(listing, PaymentBytes(w), buyer), Done)],
       past := w.past.(created := w.past.created + [tx]))
  }

  /** The lock is granted, and nothing stands in its way. */
  lemma LockChecked(w: World, index: Index, buyer: Account)
    requires index in w.m.listings && !IsLocked(w.m, index, w.now) && index !in w.m.pending
    ensures var (listing, c) := (w.m.listings[index], |w.calls|);
            var begin := BeginLock(index, listing.price, buyer);
            var w1 := LockClaim(w.m, index, listing.price, w.now).0;
            && Enabled(w, begin) && Enabled(Apply(w, begin), CanSettle(c))
            && Apply(Apply(w, begin), CanSettle(c)) == w.(
                 m := w1, calls := w.calls + [Call(index, ForLock(listing, PaymentBytes(w), buyer), Ready(true))])
  {
    var (listing, c) := (w.m.listings[index], |w.calls|);
    var w1 := Apply(w, BeginLock(index, listing.price, buyer));
    assert w1.calls == w.calls + [Call(index, ForLock(listing, PaymentBytes(w), buyer), Checking)];
    assert Apply(w1, CanSettle(c)).calls
        == w.calls + [Call(index, ForLock(listing, PaymentBytes(w), buyer), Ready(true))];
  }

  lemma LockCompletes(w: World, index: Index, buyer: Account)
    requires index in w.m.listings && !IsLocked(w.m, index, w.now) && index !in w.m.pending
    ensures var listing := w.m.listings[index];
            Play(w, LockSteps(w, index, listing.price, buyer)) == Some(LockedFor(w, index, listing, buyer))
  {
    var (listing, c) := (w.m.listings[index], |w.calls|);
    var begin := BeginLock(index, listing.price, buyer);
    LockChecked(w, index, buyer);
    var w2 := Apply(Apply(w, begin), CanSettle(c));
    assert Enabled(w2, Continue(c));
    assert Apply(w2, Continue(c)).calls == LockedFor(w, index, listing, buyer).calls;
    PlayThree(w, begin, CanSettle(c), Continue(c));
  }

  function PaySteps(w: World, index: Index, bytes: SubAccount, amount: nat): seq<Step> {
    [Deposit(bytes, amount), BeginSettle(index), ReadBalance(|w.calls|), FinishSettle(|w.calls|)]
  }

  /** The token is with the buyer, the payments are queued, and the sale is on record. */
  predicate Delivered(queue: seq<Job>, records: map<nat, Transaction>, m: Market, index: Index, tx: Transaction,
                      balance: nat, now: int)
  {
    && balance >= Reserve()
    && At(m, index) == View(Some(tx.to), None, None)
    && m.queue == SaleJobs(index, tx, balance) + queue
    && m.transactions == records[tx.id := tx.(closed := Some(now))]
  }

  lemma FinishDelivers(w: World, index: Index, tx: Transaction, balance: nat)
    requires OwnerAt(w.m.tokens, index) == Some(tx.from) && Fundable(tx, balance, w.m.totalVolume)
    ensures Delivered(w.m.queue, w.m.transactions, SettleFinish(w.m, index, tx, balance, w.now).0, index, tx, balance,
                      w.now)
  {
    SellsExactlyWhen(w.m, index, tx, balance, w.now);
    AllOrNothing(w.m, index, tx, balance, w.now);
  }

  /** The steps lead to a delivery, on top of the payments and records there were. */
  ghost predicate Completes(w: World, steps: seq<Step>, index: Index, tx: Transaction, balance: nat) {
    && Play(w, steps).Some?
    && Delivered(w.m.queue, w.m.transactions, Play(w, steps).value.m, index, tx, balance, w.now)
  }

  /** A pending transaction that is paid in full can be settled. */
  lemma PaymentCompletes(w: World, index: Index, tx: Transaction, amount: nat)
    requires index in w.m.pending && w.m.pending[index] == tx && OwnerAt(w.m.tokens, index) == Some(tx.from)
    requires Fundable(tx, Balance(w.bank, tx.bytes) + amount, w.m.totalVolume)
    ensures Completes(w, PaySteps(w, index, tx.bytes, amount), index, tx, Balance(w.bank, tx.bytes) + amount)
  {
    var (c, balance) := (|w.calls|, Balance(w.bank, tx.bytes) + amount);
    var pay := Deposit(tx.bytes, amount);
    var w1 := Apply(w, pay);
    var w2 := Apply(w1, BeginSettle(index));
    assert w2.calls == w.calls + [Call(index, Direct, Asked(tx))] && w2.m == w.m && w2.bank == w1.bank;
    var w3 := Apply(w2, ReadBalance(c));
    assert w3.calls[c] == Call(index, Direct, Answered(tx, balance)) && w3.m == w.m && w3.now == w.now;
    FinishDelivers(w3, index, tx, balance);
    assert Apply(w3, FinishSettle(c)).m == SettleFinish(w.m, index, tx, balance, w.now).0;
    PlayFour(w, pay, BeginSettle(index), ReadBalance(c), FinishSettle(c));
  }

  lemma CompletesAfter(w: World, first: seq<Step>, w1: World, rest: seq<Step>, index: Index, tx: Transaction,
                       balance: nat)
    requires Play(w, first) == Some(w1) && w1.now == w.now
    requires w1.m.queue == w.m.queue && w1.m.transactions == w.m.transactions
    requires Completes(w1, rest, index, tx, balance)
    ensures Completes(w, first + rest, index, tx, balance)
  {
    PlayThrough(w, first, rest);
  }

  function PayAfterLock(w: World, index: Index, listing: Listing, buyer: Account, amount: nat): seq<Step> {
    PaySteps(LockedFor(w, index, listing, buyer), index, PaymentBytes(w), amount)
  }

  lemma PayCompletes(w: World, index: Index, listing: Listing, buyer: Account, amount: nat)
    requires OwnerAt(w.m.tokens, index) == Some(SellerAccount(listing))
    requires Fundable(Bought(w, index, listing, buyer), Balance(w.bank, PaymentBytes(w)) + amount, w.m.totalVolume)
    ensures Completes(LockedFor(w, index, listing, buyer), PayAfterLock(w, index, listing, buyer, amount), index,
                      Bought(w, index, listing, buyer), Balance(w.bank, PaymentBytes(w)) + amount)
  {
    PaymentCompletes(LockedFor(w, index, listing, buyer), index, Bought(w, index, listing, buyer), amount);
  }

  function BuySteps(w: World, index: Index, listing: Listing, buyer: Account, amount: nat): seq<Step> {
    LockSteps(w, index, listing.price, buyer) + PayAfterLock(w, index, listing, buyer, amount)
  }

  lemma BuyCompletes(w: World, index: Index, listing: Listing, buyer: Account, amount: nat)
    requires index in w.m.listings && w.m.listings[index] == listing
    requires !IsLocked(w.m, index, w.now) && index !in w.m.pending
    requires OwnerAt(w.m.tokens, index) == Some(SellerAccount(listing))
    requires Fundable(Bought(w, index, listing, buyer), Balance(w.bank, PaymentBytes(w)) + amount, w.m.totalVolume)
    ensures Completes(w, BuySteps(w, index, listing, buyer, amount), index,
                      Bought(w, index, listing, buyer), Balance(w.bank, PaymentBytes(w)) + amount)
  {
    LockCompletes(w, index, buyer);
    PayCompletes(w, index, listing, buyer, amount);
    CompletesAfter(w, LockSteps(w, index, listing.price, buyer), LockedFor(w, index, listing, buyer),
                   PayAfterLock(w, index, listing, buyer, amount), index,
                   Bought(w, index, listing, buyer), Balance(w.bank, PaymentBytes(w)) + amount);
  }

  lemma BuyListed(w: World, index: Index, listing: Listing, buyer: Account, amount: nat)
    requires OwnerAt(w.m.tokens, index) == Some(SellerAccount(listing)) && listing.locked.None?
    requires !IsLocked(w.m, index, w.now) && index !in w.m.pending
    requires Fundable(Bought(w, index, listing, buyer), Balance(w.bank, PaymentBytes(w)) + amount, w.m.totalVolume)
    ensures var w1 := Listed(w, index, listing.seller, listing.subaccount, listing.price);
            Completes(w1, BuySteps(w1, index, listing, buyer, amount), index,
                      Bought(w, index, listing, buyer), Balance(w.bank, PaymentBytes(w)) + amount)
  {
    var w1 := Listed(w, index, listing.seller, listing.subaccount, listing.price);
    assert w1.m.listings[index] == listing;
    assert Bought(w1, index, listing, buyer) == Bought(w, index, listing, buyer);
    BuyCompletes(w1, index, listing, buyer, amount);
  }

  /** List, lock, pay and settle, one after the other. */
  function PurchaseSteps(w: World, index: Index, listing: Listing, buyer: Account, amount: nat): seq<Step> {
    ListSteps(w, index, listing.seller, listing.subaccount, listing.price)
    + BuySteps(Listed(w, index, listing.seller, listing.subaccount, listing.price), index, listing, buyer, amount)
  }

  /**
   * From every state in which an unlocked token without pending transaction belongs to the seller:
   * when he lists it, a buyer locks it at that price and pays enough, the settlement gives the buyer
   * the token, queues exactly the payments of the sum paid, and records the sale under a fresh id.
   */
  lemma PurchaseCompletes(w: World, index: Index, listing: Listing, buyer: Account, amount: nat)
    requires OwnerAt(w.m.tokens, index) == Some(SellerAccount(listing)) && listing.locked.None?
    requires !IsLocked(w.m, index, w.now) && index !in w.m.pending
    requires Fundable(Bought(w, index, listing, buyer), Balance(w.bank, PaymentBytes(w)) + amount, w.m.totalVolume)
    ensures Completes(w, PurchaseSteps(w, index, listing, buyer, amount), index,
                      Bought(w, index, listing, buyer), Balance(w.bank, PaymentBytes(w)) + amount)
  {
    var w1 := Listed(w, index, listing.seller, listing.subaccount, listing.price);
    ListCompletes(w, index, listing.seller, listing.subaccount, listing.price);
    BuyListed(w, index, listing, buyer, amount);
    CompletesAfter(w, ListSteps(w, index, listing.seller, listing.subaccount, listing.price), w1,
                   BuySteps(w1, index, listing, buyer, amount), index,
                   Bought(w, index, listing, buyer), Balance(w.bank, PaymentBytes(w)) + amount);
  }

  // ---- An earlier transaction in the way ----

  /** A lock on a token whose pending transaction is unpaid and past its lock. */
  function RetrySteps(w: World, index: Index, price: Nat64, buyer: Account): seq<Step> {
    var c := |w.calls|;
    [BeginLock(index, price, buyer), CanSettle(c), EnterSettle(c)]
    + [ReadBalance(c), FinishSettle(c), ReturnToCanSettle(c), Continue(c)]
  }

  function LockCall(w: World, index: Index, buyer: Account, phase: Phase): Call
    requires index in w.m.listings
  {
    Call(index, ForLock(w.m.listings[index], PaymentBytes(w), buyer), phase)
  }

  function Claimed(w: World, index: Index): Market
    requires index in w.m.listings
  {
    w.m.(listings := w.m.listings[index := w.m.listings[index].(locked := Some(w.now + TRANSACTION_TTL))],
         nextSubAccount := w.m.nextSubAccount + 1)
  }

  /** The state in which the lock waits for the balance of the earlier transaction. */
  function Asking(w: World, index: Index, buyer: Account): World
    requires index in w.m.listings && index in w.m.pending
  {
    w.(m := Claimed(w, index), calls := w.calls + [LockCall(w, index, buyer, Asked(w.m.pending[index]))])
  }

  lemma LockAsks(w: World, index: Index, buyer: Account)
    requires index in w.m.listings && !IsLocked(w.m, index, w.now) && index in w.m.pending
    ensures Play(w, [BeginLock(index, w.m.listings[index].price, buyer), CanSettle(|w.calls|), EnterSettle(|w.calls|)])
         == Some(Asking(w, index, buyer))
  {
    var c := |w.calls|;
    var begin := BeginLock(index, w.m.listings[index].price, buyer);
    var w1 := Apply(w, begin);
    assert w1 == w.(m := Claimed(w, index), calls := w.calls + [LockCall(w, index, buyer, Checking)]);
    var w2 := Apply(w1, CanSettle(c));
    assert w2 == w1.(calls := w.calls + [LockCall(w, index, buyer, Entering)]);
    var w3 := Apply(w2, EnterSettle(c));
    assert w3.calls == w.calls + [LockCall(w, index, buyer, Asked(w.m.pending[index]))];
    PlayThree(w, begin, CanSettle(c), EnterSettle(c));
  }

  /** A call that has asked for a balance too small goes on, as long as the token is listed and locked. */
  lemma UnpaidGoesOn(w: World, c: nat)
    requires c < |w.calls| && w.calls[c].phase.Asked? && !w.calls[c].intent.Direct?
    requires Balance(w.bank, w.calls[c].phase.tx.bytes) < w.calls[c].phase.tx.price
    requires IsLocked(w.m, w.calls[c].index, w.now)
    ensures Play(w, [ReadBalance(c), FinishSettle(c), ReturnToCanSettle(c), Continue(c)])
         == Some(ApplyContinue(Move(w, c, Ready(true)), c))
  {
    var (call, tx) := (w.calls[c], w.calls[c].phase.tx);
    var w1 := Apply(w, ReadBalance(c));
    assert w1 == Move(w, c, Answered(tx, Balance(w.bank, tx.bytes)));
    var w2 := Apply(w1, FinishSettle(c));
    assert w2 == Move(w, c, Settled(false));
    var w3 := Apply(w2, ReturnToCanSettle(c));
    assert w3 == Move(w, c, Ready(true));
    PlayFour(w, ReadBalance(c), FinishSettle(c), ReturnToCanSettle(c), Continue(c));
  }

  /** An unpaid transaction past its lock does not stand in the way of a new buyer: his replaces it. */
  lemma LockAfterUnpaid(w: World, index: Index, buyer: Account)
    requires index in w.m.listings && !IsLocked(w.m, index, w.now) && index in w.m.pending
    requires Balance(w.bank, w.m.pending[index].bytes) < w.m.pending[index].price
    ensures var listing := w.m.listings[index];
            Play(w, RetrySteps(w, index, listing.price, buyer)) == Some(LockedFor(w, index, listing, buyer))
  {
    var (listing, c) := (w.m.listings[index], |w.calls|);
    LockAsks(w, index, buyer);
    UnpaidGoesOn(Asking(w, index, buyer), c);
    ReadyRecords(w, index, buyer);
    PlayThrough(w, [BeginLock(index, listing.price, buyer), CanSettle(c), EnterSettle(c)],
                [ReadBalance(c), FinishSettle(c), ReturnToCanSettle(c), Continue(c)]);
  }

  lemma ReadyRecords(w: World, index: Index, buyer: Account)
    requires index in w.m.listings && index in w.m.pending
    ensures ApplyContinue(Move(Asking(w, index, buyer), |w.calls|, Ready(true)), |w.calls|)
         == LockedFor(w, index, w.m.listings[index], buyer)
  {
    var ready := Move(Asking(w, index, buyer), |w.calls|, Ready(true));
    assert ready.calls == w.calls + [LockCall(w, index, buyer, Ready(true))];
    assert ApplyContinue(ready, |w.calls|).calls == LockedFor(w, index, w.m.listings[index], buyer).calls;
  }

  /** When the listing is not locked the unpaid transaction is given up, and the call goes on. */
  lemma UnpaidIsGivenUp(w: World, c: nat)
    requires c < |w.calls| && w.calls[c].phase.Asked? && !w.calls[c].intent.Direct?
    requires Balance(w.bank, w.calls[c].phase.tx.bytes) < w.calls[c].phase.tx.price
    requires w.calls[c].index in w.m.listings && !IsLocked(w.m, w.calls[c].index, w.now)
    ensures Play(w, [ReadBalance(c), FinishSettle(c), ReturnToCanSettle(c)])
         == Some(Move(w, c, Ready(true)).(m := w.m.(pending := w.m.pending - {w.calls[c].index})))
  {
    var (call, tx) := (w.calls[c], w.calls[c].phase.tx);
    var w1 := Apply(w, ReadBalance(c));
    assert w1 == Move(w, c, Answered(tx, Balance(w.bank, tx.bytes)));
    var w2 := Apply(w1, FinishSettle(c));
    assert w2.calls == Move(w, c, Settled(false)).calls;
    var w3 := Apply(w2, ReturnToCanSettle(c));
    assert w3.calls == Move(w, c, Ready(true)).calls;
    PlayThree(w, ReadBalance(c), FinishSettle(c), ReturnToCanSettle(c));
  }

  /** A call that finds the earlier transaction paid settles that one, and itself records nothing. */
  lemma PaidSettlesInstead(w: World, c: nat)
    requires c < |w.calls| && w.calls[c].phase.Asked? && !w.calls[c].intent.Direct?
    requires var (index, tx) := (w.calls[c].index, w.calls[c].phase.tx);
             && OwnerAt(w.m.tokens, index) == Some(tx.from)
             && Fundable(tx, Balance(w.bank, tx.bytes), w.m.totalVolume)
    ensures var (index, tx) := (w.calls[c].index, w.calls[c].phase.tx);
            var end := Play(w, [ReadBalance(c), FinishSettle(c), ReturnToCanSettle(c), Continue(c)]);
            && end.Some?
            && Delivered(w.m.queue, w.m.transactions, end.value.m, index, tx, Balance(w.bank, tx.bytes), w.now)
            && end.value.past.created == w.past.created
  {
    var (index, tx) := (w.calls[c].index, w.calls[c].phase.tx);
    var w1 := Apply(w, ReadBalance(c));
    assert w1 == Move(w, c, Answered(tx, Balance(w.bank, tx.bytes)));
    FinishDelivers(w1, index, tx, Balance(w.bank, tx.bytes));
    SellsExactlyWhen(w.m, index, tx, Balance(w.bank, tx.bytes), w.now);
    var w2 := Apply(w1, FinishSettle(c));
    assert w2.calls[c].phase == Settled(true) && w2.past.created == w.past.created;
    var w3 := Apply(w2, ReturnToCanSettle(c));
    assert w3.calls[c].phase == Ready(false) && w3.m == w2.m;
    PlayFour(w, ReadBalance(c), FinishSettle(c), ReturnToCanSettle(c), Continue(c));
  }

  // ---- Taking a token off the market ----

  /** The listings without the one of a token. */
  function Without(listings: map<Index, Listing>, index: Index): map<Index, Listing> {
    map k | k in listings && k != index :: listings[k]
  }

  /** The state after the owner has taken a token off the market. */
  function Unlisted(w: World, index: Index, seller: Principal, sub: Option<SubAccount>): World {
    w.(m := w.m.(listings := Without(w.m.listings, index)),
       calls := w.calls + [Call(index, ForList(seller, sub, None), Done)])
  }

  function UnlistSteps(w: World, index: Index, seller: Principal, sub: Option<SubAccount>): seq<Step> {
    [BeginList(index, seller, sub, None), CanSettle(|w.calls|), Continue(|w.calls|)]
  }

  lemma WithoutIsMinus(listings: map<Index, Listing>, index: Index)
    ensures listings - {index} == Without(listings, index)
  {
  }

  /** The owner's `list` call without a price removes the listing of an unlocked token, and nothing else. */
  lemma UnlistCompletes(w: World, index: Index, seller: Principal, sub: Option<SubAccount>)
    requires OwnerAt(w.m.tokens, index) == Some(Derived(seller, sub))
    requires !IsLocked(w.m, index, w.now) && index !in w.m.pending
    ensures Play(w, UnlistSteps(w, index, seller, sub)) == Some(Unlisted(w, index, seller, sub))
  {
    var c := |w.calls|;
    var begin := BeginList(index, seller, sub, None);
    var w1 := Apply(w, begin);
    assert w1 == w.(calls := w.calls + [Call(index, ForList(seller, sub, None), Checking)]);
    var w2 := Apply(w1, CanSettle(c));
    assert w2 == w.(calls := w.calls + [Call(index, ForList(seller, sub, None), Ready(true))]);
    WithoutIsMinus(w.m.listings, index);
    var w3 := Apply(w2, Continue(c));
    assert w3.calls == Unlisted(w, index, seller, sub).calls;
    PlayThree(w, begin, CanSettle(c), Continue(c));
  }

  // ---- A restored transaction and the counter that starts again ----

  /** When a restored pending transaction has the id the counter stands at, the next lock uses that id again. */
  lemma LockReusesId(w: World, index: Index, buyer: Account, k: Index)
    requires index in w.m.listings && !IsLocked(w.m, index, w.now) && index !in w.m.pending
    requires k in w.m.pending && w.m.pending[k].id == w.m.nextTxId
    ensures var end := Play(w, LockSteps(w, index, w.m.listings[index].price, buyer));
            && end.Some?
            && index in end.value.m.pending && k in end.value.m.pending && k != index
            && end.value.m.pending[k] == w.m.pending[k]
            && end.value.m.pending[index].id == end.value.m.pending[k].id
  {
    LockCompletes(w, index, buyer);
  }

  /** Of two sales under one id the second takes over the record of the first. */
  lemma SecondSaleReplaces(m: Market, index: Index, tx: Transaction, paid: nat, now: int,
                           k: Index, other: Transaction, read: nat, later: int)
    requires tx.id == other.id && tx.bytes != other.bytes
    requires SettleFinish(m, index, tx, paid, now).1.Sold?
    requires SettleFinish(SettleFinish(m, index, tx, paid, now).0, k, other, read, later).1.Sold?
    ensures var m1 := SettleFinish(m, index, tx, paid, now).0;
            var m2 := SettleFinish(m1, k, other, read, later).0;
            && RecordOf(m1.transactions, tx)
            && RecordOf(m2.transactions, other) && !RecordOf(m2.transactions, tx)
  {
    AllOrNothing(m, index, tx, paid, now);
    AllOrNothing(SettleFinish(m, index, tx, paid, now).0, k, other, read, later);
  }
}
