/** How long a lock on a listing holds. */
module Locks {
  import opened Wrappers
  import opened Market
  import opened World
  import opened Serial
  import opened Sales

  /** A `list` call on the token goes on after its await. */
  predicate ListResumes(w: World, s: Step, index: Index)
    requires Enabled(w, s)
  {
    s.Continue? && w.calls[s.call].index == index && w.calls[s.call].intent.ForList? && w.calls[s.call].phase.ok
  }

  ghost predicate NoListBetween(ws: seq<World>, steps: seq<Step>, i: nat, j: nat, index: Index)
    requires IsRun(ws, steps) && j <= |steps|
  {
    forall k {:trigger steps[k]} :: i < k < j ==> !ListResumes(ws[k], steps[k], index)
  }

  /** After a lock, the listing is locked until the same time, unless it is gone. */
  predicate LockedUntil(m: Market, index: Index, until: int) {
    index in m.listings ==> m.listings[index].locked == Some(until)
  }

  /** Only a `list` resumption, a lock, a sale or an admin deletion changes a listing. */
  lemma ListingStep(w: World, s: Step, index: Index)
    requires Enabled(w, s) && !ListResumes(w, s, index) && !(s.BeginLock? && s.index == index)
    ensures SameListing(w.m, Apply(w, s).m, index)
  {
    if IsCallStep(s) {
      ListingCall(w, s, index);
    }
  }

  predicate SameListing(m: Market, m': Market, index: Index) {
    index in m'.listings ==> index in m.listings && m'.listings[index] == m.listings[index]
  }

  lemma ListingCall(w: World, s: Step, index: Index)
    requires Enabled(w, s) && IsCallStep(s) && !ListResumes(w, s, index)
    ensures SameListing(w.m, ApplyCall(w, s).m, index)
  {
  }

  lemma LockLocks(w: World, s: Step, index: Index)
    requires Enabled(w, s) && s.BeginLock? && s.index == index
    ensures LockedUntil(Apply(w, s).m, index, w.now + TRANSACTION_TTL)
  {
  }

  lemma {:induction false} LockStands(ws: seq<World>, steps: seq<Step>, i: nat, j: nat, index: Index)
    requires IsRun(ws, steps) && i < j <= |steps| && steps[i].BeginLock? && steps[i].index == index
    requires NoListBetween(ws, steps, i, j, index)
    requires forall k :: i < k < j ==> !(steps[k].BeginLock? && steps[k].index == index)
    ensures LockedUntil(ws[j].m, index, ws[i].now + TRANSACTION_TTL)
    decreases j
  {
    var (w, s) := (ws[j - 1], steps[j - 1]);
    assert Enabled(w, s) && ws[j] == Apply(w, s);
    if j > i + 1 {
      LockStands(ws, steps, i, j - 1, index);
      ListingStep(w, s, index);
    } else {
      LockLocks(w, s, index);
    }
  }

  lemma {:induction false} TimeGoesOn(ws: seq<World>, steps: seq<Step>, i: nat, j: nat)
    requires IsRun(ws, steps) && i <= j < |ws|
    ensures ws[i].now <= ws[j].now
    decreases j
  {
    if i < j {
      TimeGoesOn(ws, steps, i, j - 1);
      assert Enabled(ws[j - 1], steps[j - 1]) && ws[j] == Apply(ws[j - 1], steps[j - 1]);
    }
  }

  /** The last successful lock on the token before step j, if there is one from i on. */
  function LastLock(steps: seq<Step>, i: nat, j: nat, index: Index): (k: nat)
    requires i < j <= |steps| && steps[i].BeginLock? && steps[i].index == index
    ensures i <= k < j && steps[k].BeginLock? && steps[k].index == index
    ensures forall n :: k < n < j ==> !(steps[n].BeginLock? && steps[n].index == index)
    decreases j
  {
    if steps[j - 1].BeginLock? && steps[j - 1].index == index then j - 1 else LastLock(steps, i, j - 1, index)
  }

  /**
   * Lock exclusivity under any interleaving: two successful locks on one token are more than two
   * minutes apart, unless a `list` call on the token went on between them.
   */
  lemma LocksApart(ws: seq<World>, steps: seq<Step>, i: nat, j: nat, index: Index)
    requires IsRun(ws, steps) && i < j < |steps|
    requires steps[i].BeginLock? && steps[i].index == index
    requires steps[j].BeginLock? && steps[j].index == index
    requires NoListBetween(ws, steps, i, j, index)
    ensures ws[j].now > ws[i].now + TRANSACTION_TTL
  {
    var k := LastLock(steps, i, j, index);
    LockStands(ws, steps, k, j, index);
    TimeGoesOn(ws, steps, i, k);
  }

  // ---- Serial calls ----

  /** A sale of the token is recorded between states k and k + 1. */
  predicate SoldAt(ws: seq<World>, k: nat, index: Index)
    requires k + 1 < |ws|
  {
    NewSale(ws[k], ws[k + 1], index)
  }

  predicate NewSale(w: World, w': World, index: Index) {
    |w'.past.sales| > |w.past.sales| && w'.past.sales[|w.past.sales|].index == index
  }

  ghost predicate NoSaleBetween(ws: seq<World>, i: nat, j: nat, index: Index)
    requires j < |ws|
  {
    forall k :: i <= k < j ==> !SoldAt(ws, k, index)
  }

  lemma LockedListingCall(w: World, s: Step, index: Index)
    requires Sound(w, index) && Enabled(w, s) && IsCallStep(s) && !NewSale(w, ApplyCall(w, s), index)
    requires LockedAt(At(w.m, index), w.now)
    ensures At(ApplyCall(w, s).m, index).listing == At(w.m, index).listing
  {
    if s.Continue? && w.calls[s.call].index == index {
      assert Live(w.calls[s.call], index);
      assert Relies(At(w.m, index), w.now, w.calls[s.call]);
    } else if s.FinishSettle? {
      var call := w.calls[s.call];
      FinishView(w.m, call.index, call.phase.tx, call.phase.balance, w.now, index);
    }
  }

  lemma LockedListingStep(w: World, s: Step, index: Index)
    requires Sound(w, index) && Enabled(w, s) && SerialStep(w, s, index) && !NewSale(w, Apply(w, s), index)
    requires LockedAt(At(w.m, index), w.now)
    ensures At(Apply(w, s).m, index).listing == At(w.m, index).listing
  {
    if IsCallStep(s) {
      LockedListingCall(w, s, index);
    }
  }

  /**
   * When the calls on a token are serial, its locked listing keeps its price, seller, subaccount and
   * expiry until the lock expires, unless the token is sold.
   */
  lemma {:induction false} LockedListingStands(ws: seq<World>, steps: seq<Step>, i: nat, j: nat, index: Index,
                                               time: int)
    requires SerialRun(ws, steps, index) && i <= j < |ws|
    requires Coherent(At(ws[0].m, index)) && Quiet(ws[0], index)
    requires LockedAt(At(ws[i].m, index), time) && ws[j].now <= time
    requires NoSaleBetween(ws, i, j, index)
    ensures At(ws[j].m, index).listing == At(ws[i].m, index).listing
    decreases j
  {
    if i < j {
      TimeGoesOn(ws, steps, j - 1, j);
      LockedListingStands(ws, steps, i, j - 1, index, time);
      assert !SoldAt(ws, j - 1, index) && LockedAt(At(ws[j - 1].m, index), time);
      LockedListingNext(ws, steps, j - 1, j, index, time);
    }
  }

  lemma LockedListingNext(ws: seq<World>, steps: seq<Step>, k: nat, j: nat, index: Index, time: int)
    requires SerialRun(ws, steps, index) && j == k + 1 < |ws|
    requires Coherent(At(ws[0].m, index)) && Quiet(ws[0], index)
    requires LockedAt(At(ws[k].m, index), time) && ws[k].now <= time
    requires !SoldAt(ws, k, index)
    ensures At(ws[j].m, index).listing == At(ws[k].m, index).listing
  {
    SerialMarketplace(ws, steps, k, index);
    LockedListingStep(ws[k], steps[k], index);
  }

  /** So two successful serial locks on a token within two minutes have a sale of it between them. */
  lemma SerialLocksApart(ws: seq<World>, steps: seq<Step>, i: nat, j: nat, index: Index)
    requires SerialRun(ws, steps, index) && i < j < |steps|
    requires Coherent(At(ws[0].m, index)) && Quiet(ws[0], index)
    requires steps[i].BeginLock? && steps[i].index == index
    requires steps[j].BeginLock? && steps[j].index == index
    requires ws[j].now <= ws[i].now + TRANSACTION_TTL
    ensures exists k :: i < k < j && SoldAt(ws, k, index)
  {
    if NoSaleBetween(ws, i + 1, j, index) {
      LockedListingStands(ws, steps, i + 1, j, index, ws[j].now);
    }
  }

  // ---- The buyer's side ----

  /** Every suspended call on the token is a settlement called directly: no `list` or `lock` can write. */
  ghost predicate OnlySettles(w: World, index: Index) {
    forall c :: 0 <= c < |w.calls| && Live(w.calls[c], index) ==> w.calls[c].intent.Direct?
  }

  /** The lock stands for this transaction. */
  ghost predicate Reserved(w: World, index: Index, tx: Transaction) {
    At(w.m, index).pending == Some(tx) && OnlySettles(w, index)
  }

  /** The `lock` call that goes on leaves the token reserved for its transaction. */
  lemma LockReserves(w: World, c: nat, index: Index)
    requires Sound(w, index) && Enabled(w, Continue(c)) && w.calls[c].index == index
    requires w.calls[c].phase.ok && w.calls[c].intent.ForLock?
    ensures var (call, intent) := (w.calls[c], w.calls[c].intent);
            Reserved(ApplyContinue(w, c), index,
                     NewTransaction(w.m, index, intent.listing, intent.bytes, intent.buyer, w.now))
  {
    assert Live(w.calls[c], index);
    assert Quiet(ApplyContinue(w, c), index);
  }

  lemma ReservedCall(w: World, s: Step, index: Index, tx: Transaction)
    requires Sound(w, index) && Enabled(w, s) && IsCallStep(s) && !NewSale(w, ApplyCall(w, s), index)
    requires LockedAt(At(w.m, index), w.now) && Reserved(w, index, tx)
    ensures Reserved(ApplyCall(w, s), index, tx)
  {
    var c := CallOf(s);
    var w' := ApplyCall(w, s);
    assert Live(w.calls[c], index) ==> w.calls[c].intent.Direct?;
    if s.FinishSettle? {
      FinishView(w.m, w.calls[c].index, w.calls[c].phase.tx, w.calls[c].phase.balance, w.now, index);
    } else if s.Continue? && w.calls[c].index == index {
      assert Relies(At(w.m, index), w.now, w.calls[c]);
    }
    forall d | 0 <= d < |w'.calls| && Live(w'.calls[d], index)
      ensures w'.calls[d].intent.Direct?
    {
      assert Live(w.calls[d], index);
    }
  }

  lemma ReservedOther(w: World, s: Step, index: Index, tx: Transaction)
    requires Enabled(w, s) && !IsCallStep(s) && SerialStep(w, s, index)
    requires LockedAt(At(w.m, index), w.now) && Reserved(w, index, tx)
    ensures Reserved(Apply(w, s), index, tx)
  {
    var w' := Apply(w, s);
    assert w'.m.pending == w.m.pending;
    assert IsLocked(w.m, index, w.now);
    forall d | 0 <= d < |w'.calls| && Live(w'.calls[d], index)
      ensures w'.calls[d].intent.Direct?
    {
      if d < |w.calls| {
        assert Live(w.calls[d], index);
      }
    }
  }

  /** While the lock holds and the token is not sold, a serial step keeps it reserved. */
  lemma ReservedStep(w: World, s: Step, index: Index, tx: Transaction)
    requires Sound(w, index) && Enabled(w, s) && SerialStep(w, s, index) && !NewSale(w, Apply(w, s), index)
    requires LockedAt(At(w.m, index), w.now) && Reserved(w, index, tx)
    ensures Reserved(Apply(w, s), index, tx)
  {
    if IsCallStep(s) {
      ReservedCall(w, s, index, tx);
    } else {
      ReservedOther(w, s, index, tx);
    }
  }

  /**
   * When the calls on a token are serial, a buyer's pending transaction stays the pending transaction
   * of the token until his lock expires, unless the token is sold.
   */
  lemma {:induction false} ReservationStands(ws: seq<World>, steps: seq<Step>, i: nat, j: nat, index: Index,
                                             time: int, tx: Transaction)
    requires SerialRun(ws, steps, index) && i <= j < |ws|
    requires Coherent(At(ws[0].m, index)) && Quiet(ws[0], index)
    requires LockedAt(At(ws[i].m, index), time) && ws[j].now <= time && Reserved(ws[i], index, tx)
    requires NoSaleBetween(ws, i, j, index)
    ensures Reserved(ws[j], index, tx)
    decreases j
  {
    if i < j {
      TimeGoesOn(ws, steps, j - 1, j);
      ReservationStands(ws, steps, i, j - 1, index, time, tx);
      LockedListingStands(ws, steps, i, j - 1, index, time);
      SerialMarketplace(ws, steps, j - 1, index);
      assert !SoldAt(ws, j - 1, index);
      ReservedStep(ws[j - 1], steps[j - 1], index, tx);
    }
  }

  /** So what a settlement resumed in that time holds is that transaction, and it delivers when it is paid. */
  lemma ReservedPaymentDelivers(ws: seq<World>, steps: seq<Step>, i: nat, j: nat, index: Index, time: int,
                                tx: Transaction)
    requires SerialRun(ws, steps, index) && i <= j < |steps|
    requires Coherent(At(ws[0].m, index)) && Quiet(ws[0], index)
    requires LockedAt(At(ws[i].m, index), time) && ws[j].now <= time && Reserved(ws[i], index, tx)
    requires NoSaleBetween(ws, i, j, index)
    requires steps[j].FinishSettle? && ws[j].calls[steps[j].call].index == index
    ensures var call := ws[j].calls[steps[j].call];
            && call.phase.tx == tx
            && (Fundable(tx, call.phase.balance, ws[j].m.totalVolume) ==>
                  At(ws[j + 1].m, index) == View(Some(tx.to), None, None))
  {
    ReservationStands(ws, steps, i, j, index, time, tx);
    SerialSaleSettles(ws, steps, j, index);
  }
}
