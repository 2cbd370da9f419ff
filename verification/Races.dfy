/** Where overlapping calls break what serial calls keep, and exactly when, over all runs. */
module Races {
  import opened Wrappers
  import opened Accounts
  import opened Market
  import opened World
  import opened Solvency
  import opened Serial
  import opened Sales
  import opened Ownership
  import opened Plays

  /**
   * `list` checks the owner before its await and writes after it. So from every state in which a
   * token is unlisted and has no pending transaction, its owner can give it away while his `list`
   * call is suspended, and the listing then names a seller who does not own the token.
   */
  lemma ListRace(w: World, index: Index, seller: Principal, sub: Option<SubAccount>, price: Nat64, receiver: Account)
    requires At(w.m, index) == View(Some(Derived(seller, sub)), None, None)
    requires receiver != Derived(seller, sub)
    ensures var c := |w.calls|;
            var owner := Derived(seller, sub);
            var end := Play(w, [BeginList(index, seller, sub, Some(price)), CanSettle(c),
                                TransferToken(index, owner, owner, receiver), Continue(c)]);
            && end.Some?
            && At(end.value.m, index) == View(Some(receiver), Some(Listing(seller, sub, price, None)), None)
            && !Coherent(At(end.value.m, index))
  {
    var c := |w.calls|;
    var owner := Derived(seller, sub);
    var list, check := BeginList(index, seller, sub, Some(price)), CanSettle(c);
    var give, resume := TransferToken(index, owner, owner, receiver), Continue(c);
    var w1 := Apply(w, list);
    assert w1.calls[c] == Call(index, ForList(seller, sub, Some(price)), Checking);
    var w2 := Apply(w1, check);
    assert w2.calls[c] == Call(index, ForList(seller, sub, Some(price)), Ready(true)) && w2.m == w.m;
    var w3 := Apply(w2, give);
    assert w3.calls == w2.calls && OwnerAt(w3.m.tokens, index) == Some(receiver);
    var w4 := Apply(w3, resume);
    assert w4.m.tokens == w3.m.tokens && w4.m.listings[index] == Listing(seller, sub, price, None);
    PlayFour(w, list, check, give, resume);
  }

  /** A call keeps its token and its purpose as long as it lives. */
  lemma {:induction false} CallStays(ws: seq<World>, steps: seq<Step>, i: nat, j: nat, c: nat)
    requires IsRun(ws, steps) && i <= j <= |steps| && c < |ws[i].calls|
    ensures c < |ws[j].calls|
    ensures ws[j].calls[c].index == ws[i].calls[c].index && ws[j].calls[c].intent == ws[i].calls[c].intent
    decreases j
  {
    if i < j {
      assert Enabled(ws[j - 1], steps[j - 1]) && ws[j] == Apply(ws[j - 1], steps[j - 1]);
      CallStays(ws, steps, i, j - 1, c);
      CallStaysStep(ws[j - 1], steps[j - 1], c);
    }
  }

  predicate SamePurpose(w: World, w': World, c: nat)
    requires c < |w.calls|
  {
    c < |w'.calls| && w'.calls[c].index == w.calls[c].index && w'.calls[c].intent == w.calls[c].intent
  }

  lemma CallStaysCall(w: World, s: Step, c: nat)
    requires Enabled(w, s) && IsCallStep(s) && c < |w.calls|
    ensures SamePurpose(w, ApplyCall(w, s), c)
  {
  }

  lemma CallStaysStep(w: World, s: Step, c: nat)
    requires Enabled(w, s) && c < |w.calls|
    ensures SamePurpose(w, Apply(w, s), c)
  {
    if IsCallStep(s) {
      CallStaysCall(w, s, c);
    }
  }

  /** The `list` call begun at step i goes on at step j and writes its listing. */
  ghost predicate ListsAt(ws: seq<World>, steps: seq<Step>, i: nat, j: nat)
    requires IsRun(ws, steps)
  {
    && i < j < |steps| && steps[i].BeginList? && steps[i].price.Some?
    && steps[j] == Continue(|ws[i].calls|) && Ready(true) == CallPhase(ws[j], |ws[i].calls|)
  }

  function CallPhase(w: World, c: nat): Phase {
    if c < |w.calls| then w.calls[c].phase else Done
  }

  lemma ListBegins(w: World, s: Step)
    requires Enabled(w, s) && s.BeginList?
    ensures OwnerAt(w.m.tokens, s.index) == Some(Derived(s.caller, s.from))
    ensures Apply(w, s).calls == w.calls + [Call(s.index, ForList(s.caller, s.from, s.price), Checking)]
    ensures Receiver(w, s, s.index) == None
  {
  }

  lemma ListResumes(w: World, c: nat, caller: Principal, sub: Option<SubAccount>, price: Nat64)
    requires Enabled(w, Continue(c)) && w.calls[c].phase.ok
    requires w.calls[c].intent == ForList(caller, sub, Some(price))
    ensures var (k, w') := (w.calls[c].index, ApplyContinue(w, c));
            && w'.m.tokens == w.m.tokens
            && k in w'.m.listings && w'.m.listings[k] == Listing(caller, sub, price, None)
  {
  }

  /**
   * A `list` call leaves its token listed by its owner exactly when, since the call began, nobody was
   * handed the token by an EXT transfer or a settlement, or the last one it was handed to is the
   * caller.
   */
  lemma ListedByOwnerExactlyWhen(ws: seq<World>, steps: seq<Step>, i: nat, j: nat)
    requires IsRun(ws, steps) && ListsAt(ws, steps, i, j)
    ensures var (begun, v) := (steps[i], At(ws[j + 1].m, steps[i].index));
            var (caller, last) := (Derived(begun.caller, begun.from), LastReceiver(ws, steps, i, j, begun.index));
            && v.listing == Some(Listing(begun.caller, begun.from, begun.price.value, None))
            && (v.owner == Some(SellerAccount(v.listing.value)) <==> last == None || last == Some(caller))
  {
    var (s, c) := (steps[i], |ws[i].calls|);
    assert Enabled(ws[i], steps[i]) && ws[i + 1] == Apply(ws[i], steps[i]);
    assert Enabled(ws[j], steps[j]) && ws[j + 1] == Apply(ws[j], steps[j]);
    ListBegins(ws[i], s);
    CallStays(ws, steps, i + 1, j, c);
    ListResumes(ws[j], c, s.caller, s.from, s.price.value);
    OwnerIsLastReceiver(ws, steps, i, j, s.index);
  }

  /** Step i completes a sale and step j > i goes on with a settlement of the same transaction. */
  ghost predicate Overlap(ws: seq<World>, steps: seq<Step>, i: nat, j: nat)
    requires IsRun(ws, steps)
  {
    && i < j < |steps| && IsFinish(ws[i], steps[i]) && IsFinish(ws[j], steps[j])
    && Completed(ws[i], steps[i].call)
    && Finishing(ws[i], steps[i]).index == Finishing(ws[j], steps[j]).index
    && Finishing(ws[i], steps[i]).phase.tx == Finishing(ws[j], steps[j]).phase.tx
  }

  predicate IsFinish(w: World, s: Step) {
    s.FinishSettle? && Enabled(w, s)
  }

  function Finishing(w: World, s: Step): Call
    requires IsFinish(w, s)
  {
    w.calls[s.call]
  }

  lemma AfterAssociates(a: Option<Account>, b: Option<Account>, c: Option<Account>)
    ensures After(a, After(b, c)) == After(After(a, b), c)
  {
  }

  lemma {:induction false} FirstReceiver(ws: seq<World>, steps: seq<Step>, i: nat, j: nat, index: Index)
    requires IsRun(ws, steps) && i < j <= |steps| && Enabled(ws[i], steps[i])
    ensures LastReceiver(ws, steps, i, j, index)
         == After(LastReceiver(ws, steps, i + 1, j, index), Receiver(ws[i], steps[i], index))
    decreases j
  {
    if i + 1 < j {
      assert Enabled(ws[j - 1], steps[j - 1]);
      FirstReceiver(ws, steps, i, j - 1, index);
      AfterAssociates(Receiver(ws[j - 1], steps[j - 1], index), LastReceiver(ws, steps, i + 1, j - 1, index),
                      Receiver(ws[i], steps[i], index));
    }
  }

  /**
   * When a transaction has been sold, another settlement that holds it completes too exactly when the
   * last hand-over of the token, counting from that first sale, gave it back to the seller, and the
   * funds it read cover it and still fit.
   */
  lemma OverlapSellsTwiceExactlyWhen(ws: seq<World>, steps: seq<Step>, i: nat, j: nat)
    requires IsRun(ws, steps) && Overlap(ws, steps, i, j)
    ensures var call := Finishing(ws[j], steps[j]);
            Completed(ws[j], steps[j].call) <==>
              && LastReceiver(ws, steps, i, j, call.index) == Some(call.phase.tx.from)
              && Fundable(call.phase.tx, call.phase.balance, ws[j].m.totalVolume)
  {
    var call := Finishing(ws[j], steps[j]);
    FirstReceiver(ws, steps, i, j, call.index);
    OwnerIsLastReceiver(ws, steps, i, j, call.index);
    SellsExactlyWhen(ws[j].m, call.index, call.phase.tx, call.phase.balance, ws[j].now);
  }

  lemma HandBack(w: World, index: Index, owner: Account, receiver: Account)
    requires OwnerAt(w.m.tokens, index) == Some(owner) && index !in w.m.listings
    ensures Enabled(w, TransferToken(index, owner, owner, receiver))
    ensures var w' := Apply(w, TransferToken(index, owner, owner, receiver));
            && OwnerAt(w'.m.tokens, index) == Some(receiver) && w'.calls == w.calls && w'.past == w.past
            && w'.m == w.m.(tokens := w'.m.tokens) && w'.now == w.now
  {
  }

  /** That happens: the buyer gives the token back before the second settlement goes on. */
  lemma ReturnedTokenSellsTwice(w: World, c: nat, d: nat)
    requires c != d && Enabled(w, FinishSettle(c)) && Enabled(w, FinishSettle(d))
    requires w.calls[c].index == w.calls[d].index && w.calls[c].phase == w.calls[d].phase
    requires var (tx, balance) := (w.calls[c].phase.tx, w.calls[c].phase.balance);
             OwnerAt(w.m.tokens, w.calls[c].index) == Some(tx.from) && Fundable(tx, balance, w.m.totalVolume + tx.price)
    ensures var (index, tx) := (w.calls[c].index, w.calls[c].phase.tx);
            var sale := Sale(index, tx, w.calls[c].phase.balance);
            var end := Play(w, [FinishSettle(c), TransferToken(index, tx.to, tx.to, tx.from), FinishSettle(d)]);
            end.Some? && end.value.past.sales == w.past.sales + [sale] + [sale]
  {
    var call := w.calls[c];
    var (index, tx) := (call.index, call.phase.tx);
    var back := TransferToken(index, tx.to, tx.to, tx.from);
    SellsExactlyWhen(w.m, index, tx, call.phase.balance, w.now);
    AllOrNothing(w.m, index, tx, call.phase.balance, w.now);
    var w1 := ApplyFinish(w, c);
    assert w1.calls[d] == w.calls[d] && index !in w1.m.listings && w1.now == w.now;
    var w2 := Apply(w1, back);
    HandBack(w1, index, tx.to, tx.from);
    SellsExactlyWhen(w2.m, index, tx, call.phase.balance, w.now);
    PlayThree(w, FinishSettle(c), back, FinishSettle(d));
  }

  /** So it is when nothing else hands the token over and the buyer's account is the seller's. */
  lemma OverlapWithoutHandOver(ws: seq<World>, steps: seq<Step>, i: nat, j: nat)
    requires IsRun(ws, steps) && Overlap(ws, steps, i, j)
    requires LastReceiver(ws, steps, i + 1, j, Finishing(ws[j], steps[j]).index) == None
    ensures var (tx, balance) := (Finishing(ws[j], steps[j]).phase.tx, Finishing(ws[j], steps[j]).phase.balance);
            Completed(ws[j], steps[j].call) <==> tx.to == tx.from && Fundable(tx, balance, ws[j].m.totalVolume)
  {
    OverlapSellsTwiceExactlyWhen(ws, steps, i, j);
    FirstReceiver(ws, steps, i, j, Finishing(ws[j], steps[j]).index);
  }

  lemma {:induction false} ProceedsGrow(ws: seq<World>, steps: seq<Step>, i: nat, j: nat, sub: SubAccount)
    requires IsRun(ws, steps) && i <= j <= |steps|
    ensures Proceeds(ws[i].past.sales, sub) <= Proceeds(ws[j].past.sales, sub)
    decreases j
  {
    if i < j {
      assert Enabled(ws[j - 1], steps[j - 1]) && ws[j] == Apply(ws[j - 1], steps[j - 1]);
      ProceedsGrow(ws, steps, i, j - 1, sub);
      if steps[j - 1].FinishSettle? {
        ProceedsOfFinish(ws[j - 1], steps[j - 1].call, sub);
      } else {
        OtherTotals(ws[j - 1], steps[j - 1]);
      }
    }
  }

  lemma ProceedsOfFinish(w: World, c: nat, sub: SubAccount)
    requires Enabled(w, FinishSettle(c))
    ensures Proceeds(ApplyFinish(w, c).past.sales, sub) == Proceeds(w.past.sales, sub)
              + if Completed(w, c) && w.calls[c].phase.tx.bytes == sub then w.calls[c].phase.balance else 0
  {
    if Completed(w, c) {
      assert ApplyFinish(w, c).past.sales[..|w.past.sales|] == w.past.sales;
    }
  }

  lemma TwoReads(ws: seq<World>, steps: seq<Step>, i: nat, j: nat, sub: SubAccount)
    requires IsRun(ws, steps) && Overlap(ws, steps, i, j) && Completed(ws[j], steps[j].call)
    requires sub == Finishing(ws[j], steps[j]).phase.tx.bytes
    ensures Proceeds(ws[j + 1].past.sales, sub)
         >= Finishing(ws[i], steps[i]).phase.balance + Finishing(ws[j], steps[j]).phase.balance
  {
    assert Enabled(ws[i], steps[i]) && ws[i + 1] == Apply(ws[i], steps[i]);
    assert Enabled(ws[j], steps[j]) && ws[j + 1] == Apply(ws[j], steps[j]);
    ProceedsOfFinish(ws[i], steps[i].call, sub);
    ProceedsGrow(ws, steps, i + 1, j, sub);
    ProceedsOfFinish(ws[j], steps[j].call, sub);
  }

  /** The sums read, less all money that ever was there and what is lost, are owed beyond the balance. */
  predicate MoreOwed(w: World, money: int, sums: nat, sub: SubAccount) {
    && Owed(w, sub) + Lost(w.past, sub) + money >= Balance(w.bank, sub) + sums
    && (sums > money + Lost(w.past, sub) ==> Owed(w, sub) > Balance(w.bank, sub))
  }

  lemma MoreIsOwed(ws: seq<World>, steps: seq<Step>, k: nat, sums: nat, sub: SubAccount)
    requires IsRun(ws, steps) && k <= |steps| && Proceeds(ws[k].past.sales, sub) >= sums
    ensures MoreOwed(ws[k], Opening(ws[0], sub) + Deposited(steps, k, sub), sums, sub)
  {
    CoveredExactlyWhen(ws, steps, k, sub);
    BooksBalance(ws, steps, k, sub);
  }

  /**
   * When both complete, what is owed exceeds the balance by at least the two sums they read, less all
   * that was ever paid in or is lost. So the subaccount cannot cover its jobs when each has read more
   * than half of that: that jobs are covered does need settlements that do not overlap.
   */
  lemma OverlapIsInsolvent(ws: seq<World>, steps: seq<Step>, i: nat, j: nat, first: Call, second: Call)
    requires IsRun(ws, steps) && Overlap(ws, steps, i, j) && Completed(ws[j], steps[j].call)
    requires first == Finishing(ws[i], steps[i]) && second == Finishing(ws[j], steps[j])
    ensures var sub := second.phase.tx.bytes;
            MoreOwed(ws[j + 1], Opening(ws[0], sub) + Deposited(steps, j + 1, sub),
                     first.phase.balance + second.phase.balance, sub)
  {
    TwoReads(ws, steps, i, j, second.phase.tx.bytes);
    MoreIsOwed(ws, steps, j + 1, first.phase.balance + second.phase.balance, second.phase.tx.bytes);
  }
}
