/**
 * Transaction ids and payment subaccounts are used once in a lifetime of the canister, and what
 * follows for settlements that do not overlap.
 */
module Freshness {
  import opened Wrappers
  import opened Bytes
  import opened Accounts
  import opened Market
  import opened World
  import opened Disbursements

  // ---- Subaccounts as numbers ----

  /** The subaccount of a number is its 32-byte big-endian form. */
  lemma SubAccountIsBigEndian(n: nat)
    ensures NatToSubAccount(n) == BigEndian(n, 32)
  {
    forall i | 0 <= i < 32
      ensures NatToSubAccount(n)[i] == BigEndian(n, 32)[i]
    {
      BigEndianAt(n, 32, i);
      Pow2IsPow256(31 - i);
    }
  }

  lemma SubAccountToNat(n: nat)
    ensures ToNat(NatToSubAccount(n)) == n % Pow256(32)
    ensures BigEndian(n % Pow256(32), 32) == NatToSubAccount(n)
  {
    SubAccountIsBigEndian(n);
    ToNatBigEndian(n, 32);
    BigEndianToNat(BigEndian(n, 32));
  }

  lemma SubAccountBelow(n: nat, limit: nat)
    requires n < limit == Pow256(32)
    ensures ToNat(NatToSubAccount(n)) == n
  {
    SubAccountToNat(n);
    SmallMod(n, limit);
  }

  /** Two numbers share a subaccount exactly when they agree modulo 2^256. */
  lemma SubAccountInjective(a: nat, b: nat)
    ensures NatToSubAccount(a) == NatToSubAccount(b) <==> a % Pow256(32) == b % Pow256(32)
  {
    SubAccountToNat(a);
    SubAccountToNat(b);
  }

  // ---- The invariant ----

  /** The subaccount counter has not gone round. */
  predicate Fits(w: World) {
    SUBACCOUNT_OFFSET + w.m.nextSubAccount < Pow256(32)
  }

  predicate Taken(bytes: SubAccount, counter: nat) {
    ToNat(bytes) <= SUBACCOUNT_OFFSET + counter
  }

  /** The call is a `lock` that has taken a subaccount and not yet recorded its transaction. */
  predicate Reserves(call: Call) {
    call.intent.ForLock? && !call.phase.Done?
  }

  /** The call is a `settle` working on a transaction it has looked up. */
  predicate Holds(call: Call) {
    call.phase.Asked? || call.phase.Answered?
  }

  /** The transaction was pending when the lifetime began, or was created in it under its own id. */
  predicate Known(tx: Transaction, created: seq<Transaction>, restored: map<Index, Transaction>) {
    || (tx.token in restored && restored[tx.token] == tx)
    || (tx.id < |created| && created[tx.id] == tx)
  }

  /** Restored pending transactions stand under their tokens, and no two share a subaccount. */
  ghost predicate RestoredApart(restored: map<Index, Transaction>, counter: nat) {
    && (forall k :: k in restored ==> restored[k].token == k && Taken(restored[k].bytes, counter))
    && (forall k, l :: k in restored && l in restored && k != l ==> restored[k].bytes != restored[l].bytes)
  }

  ghost predicate CreatedFresh(created: seq<Transaction>, nextTxId: nat, base: nat, counter: nat) {
    && nextTxId == |created|
    && base <= counter
    && (forall i :: 0 <= i < |created| ==>
          && created[i].id == i
          && Taken(created[i].bytes, counter) && !Taken(created[i].bytes, base))
    && (forall i, j :: 0 <= i < j < |created| ==> created[i].bytes != created[j].bytes)
  }

  ghost predicate ReservedFresh(calls: seq<Call>, created: seq<Transaction>, base: nat, counter: nat) {
    && (forall c :: 0 <= c < |calls| && Reserves(calls[c]) ==>
          Taken(calls[c].intent.bytes, counter) && !Taken(calls[c].intent.bytes, base))
    && (forall c, i :: 0 <= c < |calls| && Reserves(calls[c]) && 0 <= i < |created| ==>
          calls[c].intent.bytes != created[i].bytes)
    && (forall c, d :: 0 <= c < d < |calls| && Reserves(calls[c]) && Reserves(calls[d]) ==>
          calls[c].intent.bytes != calls[d].intent.bytes)
  }

  ghost predicate CallsKnown(calls: seq<Call>, created: seq<Transaction>, restored: map<Index, Transaction>) {
    forall c :: 0 <= c < |calls| && Holds(calls[c]) ==>
      calls[c].phase.tx.token == calls[c].index && Known(calls[c].phase.tx, created, restored)
  }

  ghost predicate PendingKnown(pending: map<Index, Transaction>, created: seq<Transaction>,
                               restored: map<Index, Transaction>)
  {
    forall k :: k in pending ==> pending[k].token == k && Known(pending[k], created, restored)
  }

  ghost predicate SalesKnown(sales: seq<Sale>, created: seq<Transaction>, restored: map<Index, Transaction>) {
    forall i :: 0 <= i < |sales| ==> Known(sales[i].tx, created, restored)
  }

  ghost predicate Fresh(start: World, w: World) {
    && CreatedFresh(w.past.created, w.m.nextTxId, start.m.nextSubAccount, w.m.nextSubAccount)
    && ReservedFresh(w.calls, w.past.created, start.m.nextSubAccount, w.m.nextSubAccount)
    && CallsKnown(w.calls, w.past.created, start.m.pending)
    && PendingKnown(w.m.pending, w.past.created, start.m.pending)
    && SalesKnown(w.past.sales, w.past.created, start.m.pending)
  }

  /** A lifetime starts with the id counter at 0; pending and finalized transactions may have been restored. */
  ghost predicate LifetimeStart(w: World) {
    Idle(w) && w.m.nextTxId == 0 && RestoredApart(w.m.pending, w.m.nextSubAccount)
  }

  /** The first lifetime starts with no transaction on record. */
  ghost predicate FirstLifetimeStart(w: World) {
    LifetimeStart(w) && w.m.pending == map[] && w.m.transactions == map[]
  }

  // ---- Steps ----

  /** A new call that reserves nothing, or a call that moves on keeping its purpose, keeps reservations apart. */
  lemma ReservedMove(calls: seq<Call>, c: nat, call: Call, created: seq<Transaction>, base: nat, counter: nat)
    requires c < |calls| && ReservedFresh(calls, created, base, counter)
    requires Reserves(call) ==> Reserves(calls[c]) && call.intent == calls[c].intent
    ensures ReservedFresh(calls[c := call], created, base, counter)
  {
  }

  lemma ReservedNew(calls: seq<Call>, call: Call, created: seq<Transaction>, base: nat, counter: nat, next: nat)
    requires ReservedFresh(calls, created, base, counter) && base <= counter <= next
    requires forall i :: 0 <= i < |created| ==> Taken(created[i].bytes, counter)
    requires Reserves(call) ==> Taken(call.intent.bytes, next) && !Taken(call.intent.bytes, counter)
    ensures ReservedFresh(calls + [call], created, base, next)
  {
  }

  /** The next subaccount is taken as soon as the counter moves, and not before. */
  lemma NextSlot(counter: nat)
    requires SUBACCOUNT_OFFSET + counter + 1 < Pow256(32)
    ensures var bytes := NatToSubAccount(SUBACCOUNT_OFFSET + (counter + 1));
            Taken(bytes, counter + 1) && !Taken(bytes, counter)
  {
    SubAccountBelow(SUBACCOUNT_OFFSET + (counter + 1), Pow256(32));
  }

  lemma CreatedGrow(created: seq<Transaction>, nextTxId: nat, base: nat, counter: nat, next: nat)
    requires CreatedFresh(created, nextTxId, base, counter) && counter <= next
    ensures CreatedFresh(created, nextTxId, base, next)
  {
  }

  lemma LockEffect(w: World, index: Index, asked: Nat64, buyer: Account)
    requires Enabled(w, BeginLock(index, asked, buyer))
    ensures var w' := ApplyLock(w, index, asked, buyer);
            && |w'.calls| == |w.calls| + 1 && w'.calls == w.calls + [w'.calls[|w.calls|]]
            && w'.calls[|w.calls|].intent.ForLock?
            && w'.calls[|w.calls|].intent.bytes == NatToSubAccount(SUBACCOUNT_OFFSET + (w.m.nextSubAccount + 1))
            && !Holds(w'.calls[|w.calls|])
            && w'.past == w.past && w'.m.pending == w.m.pending && w'.m.transactions == w.m.transactions
            && w'.m.nextTxId == w.m.nextTxId && w'.m.nextSubAccount == w.m.nextSubAccount + 1
  {
  }

  lemma FreshWithCall(start: World, w: World, w': World, call: Call)
    requires Fresh(start, w) && w'.calls == w.calls + [call] && !Holds(call)
    requires w'.past == w.past && w'.m.pending == w.m.pending && w'.m.transactions == w.m.transactions
    requires w'.m.nextTxId == w.m.nextTxId && w'.m.nextSubAccount >= w.m.nextSubAccount
    requires Reserves(call) ==>
               Taken(call.intent.bytes, w'.m.nextSubAccount) && !Taken(call.intent.bytes, w.m.nextSubAccount)
    ensures Fresh(start, w')
  {
    var base := start.m.nextSubAccount;
    CreatedGrow(w.past.created, w.m.nextTxId, base, w.m.nextSubAccount, w'.m.nextSubAccount);
    ReservedNew(w.calls, call, w.past.created, base, w.m.nextSubAccount, w'.m.nextSubAccount);
  }

  lemma LockTakesNext(w: World, index: Index, asked: Nat64, buyer: Account)
    requires Enabled(w, BeginLock(index, asked, buyer)) && Fits(ApplyLock(w, index, asked, buyer))
    ensures var w' := ApplyLock(w, index, asked, buyer);
            var call := w'.calls[|w'.calls| - 1];
            && w'.calls == w.calls + [call] && call.intent.ForLock? && !Holds(call)
            && w'.past == w.past && w'.m.pending == w.m.pending && w'.m.transactions == w.m.transactions
            && w'.m.nextTxId == w.m.nextTxId && w'.m.nextSubAccount >= w.m.nextSubAccount
            && Taken(call.intent.bytes, w'.m.nextSubAccount) && !Taken(call.intent.bytes, w.m.nextSubAccount)
  {
    LockEffect(w, index, asked, buyer);
    NextSlot(w.m.nextSubAccount);
  }

  lemma FreshLock(start: World, w: World, index: Index, asked: Nat64, buyer: Account)
    requires Fresh(start, w) && Enabled(w, BeginLock(index, asked, buyer)) && Fits(ApplyLock(w, index, asked, buyer))
    ensures Fresh(start, ApplyLock(w, index, asked, buyer))
  {
    var w' := ApplyLock(w, index, asked, buyer);
    LockTakesNext(w, index, asked, buyer);
    FreshWithCall(start, w, w', w'.calls[|w'.calls| - 1]);
  }

  /** A created transaction takes over the reservation of its call. */
  lemma CreateReserved(calls: seq<Call>, c: nat, tx: Transaction, created: seq<Transaction>, base: nat,
                       counter: nat)
    requires c < |calls| && ReservedFresh(calls, created, base, counter)
    requires CreatedFresh(created, |created|, base, counter)
    requires Reserves(calls[c]) && tx.bytes == calls[c].intent.bytes && tx.id == |created|
    ensures CreatedFresh(created + [tx], |created| + 1, base, counter)
    ensures ReservedFresh(calls[c := calls[c].(phase := Done)], created + [tx], base, counter)
  {
  }

  lemma FreshContinue(start: World, w: World, c: nat)
    requires Fresh(start, w) && Enabled(w, Continue(c))
    ensures Fresh(start, ApplyContinue(w, c))
  {
    var call := w.calls[c];
    if call.phase.ok && call.intent.ForLock? {
      var tx := NewTransaction(w.m, call.index, call.intent.listing, call.intent.bytes, call.intent.buyer, w.now);
      CreateReserved(w.calls, c, tx, w.past.created, start.m.nextSubAccount, w.m.nextSubAccount);
      assert ApplyContinue(w, c).past.created == w.past.created + [tx];
    } else {
      ReservedMove(w.calls, c, call.(phase := Done), w.past.created, start.m.nextSubAccount, w.m.nextSubAccount);
    }
  }

  /** What a settle segment can do to the records of transactions. */
  lemma FinishRecords(m: Market, index: Index, tx: Transaction, balance: nat, now: int)
    ensures var (m', end) := SettleFinish(m, index, tx, balance, now);
            && m'.nextTxId == m.nextTxId && m'.nextSubAccount == m.nextSubAccount
            && (m'.pending == m.pending || m'.pending == m.pending - {index})
            && m'.transactions ==
                 (if end.Sold? then m.transactions[tx.id := tx.(closed := Some(now))] else m.transactions)
            && (end.Sold? ==> m'.pending == m.pending - {index})
  {
  }

  lemma FreshFinish(start: World, w: World, c: nat)
    requires Fresh(start, w) && Enabled(w, FinishSettle(c))
    ensures Fresh(start, ApplyFinish(w, c))
  {
    var call := w.calls[c];
    var w' := ApplyFinish(w, c);
    assert Holds(call) && Known(call.phase.tx, w.past.created, start.m.pending);
    FinishRecords(w.m, call.index, call.phase.tx, call.phase.balance, w.now);
    ReservedMove(w.calls, c, w'.calls[c], w.past.created, start.m.nextSubAccount, w.m.nextSubAccount);
    assert w'.calls == w.calls[c := w'.calls[c]] && !Holds(w'.calls[c]);
  }

  lemma FreshMove(start: World, w: World, s: Step)
    requires Fresh(start, w) && Enabled(w, s) && IsCallStep(s) && !s.FinishSettle? && !s.Continue?
    ensures Fresh(start, ApplyCall(w, s))
  {
    var w' := ApplyCall(w, s);
    var c := CallOf(s);
    assert w'.calls == w.calls[c := w'.calls[c]];
    ReservedMove(w.calls, c, w'.calls[c], w.past.created, start.m.nextSubAccount, w.m.nextSubAccount);
    assert w'.m == w.m && w'.past == w.past;
  }

  /** The steps that neither move a call nor take a subaccount leave every record alone. */
  lemma OtherRecords(w: World, s: Step)
    requires Enabled(w, s) && !IsCallStep(s) && !s.BeginLock?
    ensures var w' := Apply(w, s);
            && w'.m.pending == w.m.pending && w'.m.transactions == w.m.transactions
            && w'.m.nextTxId == w.m.nextTxId && w'.m.nextSubAccount == w.m.nextSubAccount
            && w'.past.created == w.past.created && w'.past.sales == w.past.sales
            && (s.BeginList? || s.BeginSettle? || w'.calls == w.calls)
  {
  }

  lemma FreshOther(start: World, w: World, s: Step)
    requires Fresh(start, w) && Enabled(w, s) && !IsCallStep(s) && !s.BeginLock?
    ensures Fresh(start, Apply(w, s))
  {
    OtherRecords(w, s);
    if s.BeginList? || s.BeginSettle? {
      var call := Apply(w, s).calls[|w.calls|];
      assert Apply(w, s).calls == w.calls + [call];
      ReservedNew(w.calls, call, w.past.created, start.m.nextSubAccount, w.m.nextSubAccount, w.m.nextSubAccount);
    }
  }

  lemma FreshCall(start: World, w: World, s: Step)
    requires Fresh(start, w) && Enabled(w, s) && IsCallStep(s)
    ensures Fresh(start, ApplyCall(w, s))
  {
    if s.FinishSettle? {
      FreshFinish(start, w, s.call);
    } else if s.Continue? {
      FreshContinue(start, w, s.call);
    } else {
      FreshMove(start, w, s);
    }
  }

  lemma FreshStep(start: World, w: World, s: Step)
    requires Fresh(start, w) && Enabled(w, s) && Fits(Apply(w, s))
    ensures Fresh(start, Apply(w, s))
  {
    if s.BeginLock? {
      FreshLock(start, w, s.index, s.asked, s.buyer);
    } else if IsCallStep(s) {
      FreshCall(start, w, s);
    } else {
      FreshOther(start, w, s);
    }
  }

  lemma CallKeepsCounter(w: World, s: Step)
    requires Enabled(w, s) && IsCallStep(s)
    ensures ApplyCall(w, s).m.nextSubAccount == w.m.nextSubAccount
  {
  }

  lemma CounterGrows(w: World, s: Step)
    requires Enabled(w, s)
    ensures Apply(w, s).m.nextSubAccount >= w.m.nextSubAccount
  {
    if IsCallStep(s) {
      CallKeepsCounter(w, s);
    }
  }

  /** Every state of a lifetime whose subaccount counter has not gone round is fresh. */
  lemma {:induction false} FreshRun(ws: seq<World>, steps: seq<Step>, i: nat)
    requires IsRun(ws, steps) && LifetimeStart(ws[0]) && i < |ws| && Fits(ws[i])
    ensures Fresh(ws[0], ws[i])
  {
    if i > 0 {
      CounterGrows(ws[i - 1], steps[i - 1]);
      FreshRun(ws, steps, i - 1);
      FreshStep(ws[0], ws[i - 1], steps[i - 1]);
    }
  }

  // ---- Transactions of one lifetime ----

  /** The subaccount tells the transactions of a lifetime apart. */
  lemma BytesIdentify(start: World, w: World, a: Transaction, b: Transaction)
    requires LifetimeStart(start) && Fresh(start, w)
    requires Known(a, w.past.created, start.m.pending) && Known(b, w.past.created, start.m.pending)
    ensures a.bytes == b.bytes <==> a == b
  {
  }

  /**
   * Any two transactions of one lifetime, created in it or restored as pending, differ in their
   * payment subaccount; those created in it differ in id too.
   */
  lemma TransactionsAreDistinct(ws: seq<World>, steps: seq<Step>, i: nat, a: Transaction, b: Transaction)
    requires IsRun(ws, steps) && LifetimeStart(ws[0]) && i < |ws| && Fits(ws[i])
    requires Known(a, ws[i].past.created, ws[0].m.pending) && Known(b, ws[i].past.created, ws[0].m.pending)
    ensures a != b ==> a.bytes != b.bytes
    ensures a != b && a in ws[i].past.created && b in ws[i].past.created ==> a.id != b.id
    ensures forall k :: k in ws[i].m.pending ==> Known(ws[i].m.pending[k], ws[i].past.created, ws[0].m.pending)
    ensures ws[i].m.nextTxId == |ws[i].past.created|
  {
    FreshRun(ws, steps, i);
    BytesIdentify(ws[0], ws[i], a, b);
  }

  /** Another restored transaction has the id, or it is restored itself and the counter has passed its id. */
  predicate SharesId(tx: Transaction, restored: map<Index, Transaction>, nextTxId: nat) {
    || (exists k :: k in restored && restored[k].id == tx.id && restored[k] != tx)
    || (tx.token in restored && restored[tx.token] == tx && tx.id < nextTxId)
  }

  /** The id counter starts again at 0: two transactions of a lifetime have one id exactly in these cases. */
  lemma IdsCollideExactlyWhen(ws: seq<World>, steps: seq<Step>, i: nat, tx: Transaction)
    requires IsRun(ws, steps) && LifetimeStart(ws[0]) && i < |ws| && Fits(ws[i])
    requires Known(tx, ws[i].past.created, ws[0].m.pending)
    ensures SharesId(tx, ws[0].m.pending, ws[i].m.nextTxId) <==>
              exists other :: Known(other, ws[i].past.created, ws[0].m.pending) && other != tx && other.id == tx.id
  {
    FreshRun(ws, steps, i);
    var (created, restored) := (ws[i].past.created, ws[0].m.pending);
    if SharesId(tx, restored, ws[i].m.nextTxId) {
      if k :| k in restored && restored[k].id == tx.id && restored[k] != tx {
        assert Known(restored[k], created, restored);
      } else {
        var other := created[tx.id];
        assert Known(other, created, restored) && other.id == tx.id;
        assert Taken(tx.bytes, ws[0].m.nextSubAccount) && !Taken(other.bytes, ws[0].m.nextSubAccount);
      }
    }
  }

  // ---- Finalized records ----

  ghost predicate SoldAs(sales: seq<Sale>, id: nat) {
    exists i :: 0 <= i < |sales| && sales[i].tx.id == id
  }

  /** The transaction last sold under the id. */
  function LastSold(sales: seq<Sale>, id: nat): Option<Transaction> {
    if sales == [] then None
    else if sales[|sales| - 1].tx.id == id then Some(sales[|sales| - 1].tx)
    else LastSold(sales[..|sales| - 1], id)
  }

  /** The record is that of the transaction, apart from its closing time. */
  predicate RecordOf(records: map<nat, Transaction>, tx: Transaction) {
    tx.id in records && records[tx.id] == tx.(closed := records[tx.id].closed)
  }

  /** Each record is that of the transaction last sold under its id, or else the one restored. */
  ghost predicate Recorded(records: map<nat, Transaction>, restored: map<nat, Transaction>, sales: seq<Sale>) {
    forall k: nat :: RecordedAt(records, restored, sales, k)
  }

  predicate RecordedAt(records: map<nat, Transaction>, restored: map<nat, Transaction>, sales: seq<Sale>, k: nat) {
    match LastSold(sales, k)
    case Some(tx) => tx.id == k && RecordOf(records, tx)
    case None => (k in records <==> k in restored) && (k in records ==> records[k] == restored[k])
  }

  lemma RecordedSale(records: map<nat, Transaction>, restored: map<nat, Transaction>, sales: seq<Sale>, sale: Sale,
                     now: int)
    requires Recorded(records, restored, sales)
    ensures Recorded(records[sale.tx.id := sale.tx.(closed := Some(now))], restored, sales + [sale])
  {
    var after := records[sale.tx.id := sale.tx.(closed := Some(now))];
    assert (sales + [sale])[..|sales|] == sales;
    forall k: nat
      ensures RecordedAt(after, restored, sales + [sale], k)
    {
      assert RecordedAt(records, restored, sales, k);
    }
  }

  predicate SameRecords(w: World, w': World) {
    w'.m.transactions == w.m.transactions && w'.past.sales == w.past.sales
  }

  lemma CallKeepsRecords(w: World, s: Step)
    requires Enabled(w, s) && IsCallStep(s) && !s.FinishSettle?
    ensures SameRecords(w, ApplyCall(w, s))
  {
  }

  lemma RecordedFinish(w: World, c: nat, restored: map<nat, Transaction>)
    requires Enabled(w, FinishSettle(c)) && Recorded(w.m.transactions, restored, w.past.sales)
    ensures var w' := ApplyFinish(w, c); Recorded(w'.m.transactions, restored, w'.past.sales)
  {
    var call := w.calls[c];
    FinishRecords(w.m, call.index, call.phase.tx, call.phase.balance, w.now);
    RecordedSale(w.m.transactions, restored, w.past.sales, Sale(call.index, call.phase.tx, call.phase.balance), w.now);
  }

  lemma RecordedStep(w: World, s: Step, restored: map<nat, Transaction>)
    requires Enabled(w, s) && Recorded(w.m.transactions, restored, w.past.sales)
    ensures var w' := Apply(w, s); Recorded(w'.m.transactions, restored, w'.past.sales)
  {
    if s.FinishSettle? {
      RecordedFinish(w, s.call, restored);
    } else if IsCallStep(s) {
      CallKeepsRecords(w, s);
    } else if s.BeginLock? {
      LockEffect(w, s.index, s.asked, s.buyer);
    } else {
      OtherRecords(w, s);
    }
  }

  /** Under any interleaving the records are those of the last sales and, under other ids, the restored ones. */
  lemma {:induction false} RecordsAreLastSales(ws: seq<World>, steps: seq<Step>, i: nat)
    requires IsRun(ws, steps) && Idle(ws[0]) && i < |ws|
    ensures Recorded(ws[i].m.transactions, ws[0].m.transactions, ws[i].past.sales)
  {
    if i > 0 {
      assert Enabled(ws[i - 1], steps[i - 1]) && ws[i] == Apply(ws[i - 1], steps[i - 1]);
      RecordsAreLastSales(ws, steps, i - 1);
      RecordedStep(ws[i - 1], steps[i - 1], ws[0].m.transactions);
    }
  }

  lemma {:induction false} SalesGrow(ws: seq<World>, steps: seq<Step>, i: nat, j: nat)
    requires IsRun(ws, steps) && i <= j < |ws|
    ensures ws[i].past.sales <= ws[j].past.sales
    decreases j
  {
    if i < j {
      SalesGrow(ws, steps, i, j - 1);
      var (w, s) := (ws[j - 1], steps[j - 1]);
      assert Enabled(w, s) && ws[j] == Apply(w, s);
      if s.FinishSettle? {
        FinishGrows(w, s.call);
      } else if IsCallStep(s) {
        CallKeepsRecords(w, s);
      } else if !s.BeginLock? {
        OtherRecords(w, s);
      }
    }
  }

  lemma FinishGrows(w: World, c: nat)
    requires Enabled(w, FinishSettle(c))
    ensures w.past.sales <= ApplyFinish(w, c).past.sales
  {
  }

  lemma {:induction false} LastSoldSome(sales: seq<Sale>, id: nat)
    ensures LastSold(sales, id).Some? <==> SoldAs(sales, id)
    ensures LastSold(sales, id).Some? ==> exists i :: 0 <= i < |sales| && LastSold(sales, id) == Some(sales[i].tx)
  {
    if sales != [] {
      var init := sales[..|sales| - 1];
      LastSoldSome(init, id);
      assert forall i :: 0 <= i < |init| ==> init[i] == sales[i];
      if i :| 0 <= i < |init| && init[i].tx.id == id {
        assert sales[i].tx.id == id;
      }
    }
  }

  /** The record of a sale is later still that of its transaction exactly when that was last sold under the id. */
  lemma RecordKeptExactlyWhen(ws: seq<World>, steps: seq<Step>, i: nat, j: nat, n: nat)
    requires IsRun(ws, steps) && Idle(ws[0]) && i <= j < |ws| && n < |ws[i].past.sales|
    ensures var tx := ws[i].past.sales[n].tx;
            var last := LastSold(ws[j].past.sales, tx.id);
            RecordOf(ws[j].m.transactions, tx) <==> last.Some? && last.value == tx.(closed := last.value.closed)
  {
    var tx := ws[i].past.sales[n].tx;
    RecordsAreLastSales(ws, steps, j);
    SalesGrow(ws, steps, i, j);
    assert RecordedAt(ws[j].m.transactions, ws[0].m.transactions, ws[j].past.sales, tx.id);
    LastSoldSome(ws[j].past.sales, tx.id);
    assert ws[j].past.sales[n].tx.id == tx.id;
  }

  /** So it is kept as long as no other transaction of the lifetime shares the id. */
  lemma NoRecordOverwritten(ws: seq<World>, steps: seq<Step>, i: nat, j: nat, n: nat)
    requires IsRun(ws, steps) && LifetimeStart(ws[0]) && i <= j < |ws| && Fits(ws[j]) && n < |ws[i].past.sales|
    requires !SharesId(ws[i].past.sales[n].tx, ws[0].m.pending, ws[j].m.nextTxId)
    ensures RecordOf(ws[j].m.transactions, ws[i].past.sales[n].tx)
  {
    var (tx, sales) := (ws[i].past.sales[n].tx, ws[j].past.sales);
    FreshRun(ws, steps, j);
    SalesGrow(ws, steps, i, j);
    assert sales[n].tx == tx;
    LastSoldSome(sales, tx.id);
    var m :| 0 <= m < |sales| && LastSold(sales, tx.id) == Some(sales[m].tx);
    RecordsAreLastSales(ws, steps, j);
    assert RecordedAt(ws[j].m.transactions, ws[0].m.transactions, sales, tx.id);
    assert Known(sales[m].tx, ws[j].past.created, ws[0].m.pending);
    IdsCollideExactlyWhen(ws, steps, j, tx);
  }

  /**
   * The records of an earlier lifetime are restored but the id counter is not. Such a record is kept
   * exactly as long as no transaction, be it created since or restored as pending, is sold under its
   * id.
   */
  lemma RestoredRecordKept(ws: seq<World>, steps: seq<Step>, i: nat, k: nat)
    requires IsRun(ws, steps) && LifetimeStart(ws[0]) && i < |ws| && Fits(ws[i])
    requires k in ws[0].m.transactions && Taken(ws[0].m.transactions[k].bytes, ws[0].m.nextSubAccount)
    requires forall l :: l in ws[0].m.pending ==> ws[0].m.pending[l].bytes != ws[0].m.transactions[k].bytes
    ensures k in ws[i].m.transactions
    ensures ws[i].m.transactions[k] == ws[0].m.transactions[k] <==> !SoldAs(ws[i].past.sales, k)
  {
    FreshRun(ws, steps, i);
    RecordsAreLastSales(ws, steps, i);
    var sales := ws[i].past.sales;
    assert RecordedAt(ws[i].m.transactions, ws[0].m.transactions, sales, k);
    LastSoldSome(sales, k);
    if SoldAs(sales, k) {
      var n :| 0 <= n < |sales| && LastSold(sales, k) == Some(sales[n].tx);
      assert Known(sales[n].tx, ws[i].past.created, ws[0].m.pending);
      assert ws[i].m.transactions[k].bytes == sales[n].tx.bytes;
    }
  }

  /** In the first lifetime every record stands under an id below the counter, so the next id is free. */
  lemma FirstIdsAreFresh(ws: seq<World>, steps: seq<Step>, i: nat)
    requires IsRun(ws, steps) && FirstLifetimeStart(ws[0]) && i < |ws| && Fits(ws[i])
    ensures forall k :: k in ws[i].m.transactions ==> k < ws[i].m.nextTxId
    ensures forall k :: k in ws[i].m.pending ==> ws[i].m.pending[k].id < ws[i].m.nextTxId
  {
    FreshRun(ws, steps, i);
    RecordsAreLastSales(ws, steps, i);
    forall k | k in ws[i].m.transactions
      ensures k < ws[i].m.nextTxId
    {
      assert RecordedAt(ws[i].m.transactions, ws[0].m.transactions, ws[i].past.sales, k);
      LastSoldSome(ws[i].past.sales, k);
      var n :| 0 <= n < |ws[i].past.sales| && LastSold(ws[i].past.sales, k) == Some(ws[i].past.sales[n].tx);
      assert Known(ws[i].past.sales[n].tx, ws[i].past.created, ws[0].m.pending);
    }
  }
}
