/** When `list`, `lock` and EXT transfers are granted, and what listings and locks then hold, over all runs. */
module Listings {
  import opened Wrappers
  import opened Bytes
  import opened Accounts
  import opened Market
  import opened World
  import opened Freshness
  import opened Serial
  import opened Races

  /** The listing is under a lock that has not run out. */
  predicate UnderLock(m: Market, index: Index, now: int) {
    index in m.listings && m.listings[index].locked.Some? && m.listings[index].locked.value >= now
  }

  // ---- What is granted and what is refused ----

  /** A lock is granted exactly on an unlocked listing, at the price it is listed at. */
  lemma LockGrantedExactlyWhen(w: World, index: Index, asked: Nat64, buyer: Account)
    ensures Enabled(w, BeginLock(index, asked, buyer)) <==>
              index in w.m.listings && w.m.listings[index].price == asked && !UnderLock(w.m, index, w.now)
  {
  }

  lemma LockRefusals(m: Market, index: Index, asked: Nat64, now: int)
    ensures var answer := LockClaim(m, index, asked, now).1;
            && (answer == NoClaim("Already locked.") <==> UnderLock(m, index, now))
            && (answer == NoClaim("No such listing.") <==> index !in m.listings)
            && (answer == NoClaim("Incorrect listing price.") <==>
                  index in m.listings && !UnderLock(m, index, now) && m.listings[index].price != asked)
    ensures LockClaim(m, index, asked, now).1.NoClaim? ==> LockClaim(m, index, asked, now).0 == m
  {
    DifferentReasons();
  }

  lemma DifferentReasons()
    ensures "Already locked." != "No such listing." && "No such listing." != "Incorrect listing price."
    ensures "Already locked." != "Incorrect listing price." && "Unauthorized" != "Token is locked."
    ensures "Token owner doesn't exist." != "Unauthorized"
    ensures "Token owner doesn't exist." != "Only the owner can do that."
    ensures "Unauthorized" != "Only the owner can do that."
    ensures "Unauthorized" != "This token is currently listed for sale!"
    ensures "This token is currently listed for sale!" != "Token owner doesn't exist."
    ensures "This token is currently listed for sale!" != "Only the owner can do that."
  {
    assert |"Already locked."| == 15 && |"No such listing."| == 16 && |"Incorrect listing price."| == 24;
    assert |"Unauthorized"| == 12 && |"Token is locked."| == 16;
    assert |"Token owner doesn't exist."| == 26 && |"Only the owner can do that."| == 27;
    assert |"This token is currently listed for sale!"| == 40;
  }

  /** A `list` call is granted exactly to the owner of a token whose listing is not locked. */
  lemma ListGrantedExactlyWhen(w: World, index: Index, caller: Principal, from: Option<SubAccount>,
                               price: Option<Nat64>)
    ensures Enabled(w, BeginList(index, caller, from, price)) <==>
              OwnerAt(w.m.tokens, index) == Some(Derived(caller, from)) && !UnderLock(w.m, index, w.now)
  {
  }

  lemma ListRefusals(m: Market, index: Index, caller: Account, now: int)
    ensures var answer := ListCheck(m, index, caller, now);
            && (answer == Trapped <==> index >= |m.tokens|)
            && (answer == Refused("Unauthorized") <==> index < |m.tokens| && OwnerAt(m.tokens, index) != Some(caller))
            && (answer == Refused("Token is locked.") <==>
                  OwnerAt(m.tokens, index) == Some(caller) && UnderLock(m, index, now))
  {
    DifferentReasons();
  }

  /** An EXT transfer is granted exactly to the owner of an unlisted token, giving away what is his. */
  lemma TransferGrantedExactlyWhen(w: World, index: Index, sender: Account, giver: Account, receiver: Account)
    ensures Enabled(w, TransferToken(index, sender, giver, receiver)) <==>
              OwnerAt(w.m.tokens, index) == Some(giver) && giver == sender && index !in w.m.listings
  {
  }

  lemma TransferRefusals(m: Market, caller: Account, index: Index, from: Account, to: Account)
    ensures var answer := ExtTransfer(m, caller, index, from, to).1;
            var owner := OwnerAt(m.tokens, index);
            && (answer == Trapped <==> index >= |m.tokens|)
            && (answer == Refused("Token owner doesn't exist.") <==> index < |m.tokens| && owner == None)
            && (answer == Refused("Unauthorized") <==> owner.Some? && owner != Some(from))
            && (answer == Refused("Only the owner can do that.") <==> owner == Some(from) && from != caller)
            && (answer == Refused("This token is currently listed for sale!") <==>
                  owner == Some(from) && from == caller && index in m.listings)
    ensures !ExtTransfer(m, caller, index, from, to).1.Proceed? ==> ExtTransfer(m, caller, index, from, to).0 == m
  {
    DifferentReasons();
  }

  // ---- What a lock makes ----

  /** A granted lock takes the next subaccount and locks the listing for two minutes; nothing else changes. */
  lemma LockTakesEffect(w: World, index: Index, asked: Nat64, buyer: Account)
    requires Enabled(w, BeginLock(index, asked, buyer))
    ensures var (m, m') := (w.m, Apply(w, BeginLock(index, asked, buyer)).m);
            && index in m'.listings
            && m' == m.(nextSubAccount := m.nextSubAccount + 1, listings := m'.listings)
            && m'.listings == m.listings[index := m.listings[index].(locked := Some(w.now + 120_000_000_000))]
  {
  }

  /** The `lock` call begun at step i goes on at step j and records its transaction. */
  ghost predicate LocksAt(ws: seq<World>, steps: seq<Step>, i: nat, j: nat)
    requires IsRun(ws, steps)
  {
    && i < j < |steps| && steps[i].BeginLock?
    && steps[j] == Continue(|ws[i].calls|) && Ready(true) == CallPhase(ws[j], |ws[i].calls|)
  }

  lemma LockBegins(w: World, s: Step)
    requires Enabled(w, s) && s.BeginLock?
    ensures s.index in w.m.listings && w.m.listings[s.index].price == s.asked
    ensures |Apply(w, s).calls| == |w.calls| + 1
    ensures Apply(w, s).calls[|w.calls|] ==
              Call(s.index, ForLock(w.m.listings[s.index],
                                    NatToSubAccount(4_294_967_296 + w.m.nextSubAccount + 1), s.buyer), Checking)
  {
  }

  lemma LockGoesOn(w: World, c: nat, listing: Listing, bytes: SubAccount, buyer: Account)
    requires Enabled(w, Continue(c)) && w.calls[c].phase.ok && w.calls[c].intent == ForLock(listing, bytes, buyer)
    ensures var (k, m') := (w.calls[c].index, ApplyContinue(w, c).m);
            && m' == w.m.(nextTxId := w.m.nextTxId + 1, pending := m'.pending)
            && m'.pending == w.m.pending[k := Transaction(
                 w.m.nextTxId, k, Derived(listing.seller, listing.subaccount), buyer, listing.seller, listing.price,
                 w.now, None, bytes)]
  {
  }

  /**
   * Over any run, the transaction that a lock makes is at the price the buyer asked for, goes to that
   * buyer from the seller listed when he asked, is to be paid into the subaccount of the counter then,
   * and takes the id and the time of its creation.
   */
  lemma LockMakes(ws: seq<World>, steps: seq<Step>, i: nat, j: nat)
    requires IsRun(ws, steps) && LocksAt(ws, steps, i, j)
    ensures var (begun, pending) := (steps[i], ws[j + 1].m.pending);
            && begun.index in ws[i].m.listings && begun.index in pending
            && var listing := ws[i].m.listings[begun.index];
               pending[begun.index] == Transaction(
                 ws[j].m.nextTxId, begun.index, Derived(listing.seller, listing.subaccount), begun.buyer,
                 listing.seller, begun.asked, ws[j].now, None,
                 BigEndian(4_294_967_296 + ws[i].m.nextSubAccount + 1, 32))
  {
    var (s, c) := (steps[i], |ws[i].calls|);
    assert Enabled(ws[i], steps[i]) && ws[i + 1] == Apply(ws[i], steps[i]);
    assert Enabled(ws[j], steps[j]) && ws[j + 1] == Apply(ws[j], steps[j]);
    LockBegins(ws[i], s);
    CallStays(ws, steps, i + 1, j, c);
    var bytes := NatToSubAccount(4_294_967_296 + ws[i].m.nextSubAccount + 1);
    LockGoesOn(ws[j], c, ws[i].m.listings[s.index], bytes, s.buyer);
    SubAccountIsBigEndian(4_294_967_296 + ws[i].m.nextSubAccount + 1);
  }

  // ---- Taking a token off the market ----

  /** A `list` call on the token that gives a price goes on. */
  predicate Offers(w: World, s: Step, index: Index)
    requires Enabled(w, s)
  {
    && s.Continue? && w.calls[s.call].index == index && w.calls[s.call].phase.ok
    && w.calls[s.call].intent.ForList? && w.calls[s.call].intent.price.Some?
  }

  /** One that gives no price goes on. */
  predicate Withdraws(w: World, s: Step, index: Index)
    requires Enabled(w, s)
  {
    && s.Continue? && w.calls[s.call].index == index && w.calls[s.call].phase.ok
    && w.calls[s.call].intent.ForList? && w.calls[s.call].intent.price.None?
  }

  /** Then the token is off the market, and nothing else changes. */
  lemma WithdrawalUnlists(w: World, s: Step, index: Index)
    requires Enabled(w, s) && Withdraws(w, s, index)
    ensures Apply(w, s).m == w.m.(listings := map k | k in w.m.listings && k != index :: w.m.listings[k])
  {
    assert w.m.listings - {index} == map k | k in w.m.listings && k != index :: w.m.listings[k];
  }

  lemma UnlistedCall(w: World, s: Step, index: Index)
    requires Enabled(w, s) && IsCallStep(s) && index !in w.m.listings && !Offers(w, s, index)
    ensures index !in ApplyCall(w, s).m.listings
  {
  }

  lemma UnlistedStep(w: World, s: Step, index: Index)
    requires Enabled(w, s) && index !in w.m.listings && !Offers(w, s, index)
    ensures index !in Apply(w, s).m.listings && !(s.BeginLock? && s.index == index)
  {
    if IsCallStep(s) {
      UnlistedCall(w, s, index);
    }
  }

  ghost predicate NoOfferBetween(ws: seq<World>, steps: seq<Step>, i: nat, j: nat, index: Index)
    requires IsRun(ws, steps) && j <= |steps|
  {
    forall k {:trigger steps[k]} :: i < k < j ==> !Offers(ws[k], steps[k], index)
  }

  /**
   * Over any run, after a `list` call without a price has gone on the token stays unlisted until one
   * with a price does, and cannot be locked.
   */
  lemma {:induction false} WithdrawnStays(ws: seq<World>, steps: seq<Step>, i: nat, j: nat, index: Index)
    requires IsRun(ws, steps) && i < j <= |steps|
    requires Enabled(ws[i], steps[i]) && Withdraws(ws[i], steps[i], index)
    requires NoOfferBetween(ws, steps, i, j, index)
    ensures index !in ws[j].m.listings
    ensures j < |steps| ==> !(steps[j].BeginLock? && steps[j].index == index)
    decreases j
  {
    var (w, s) := (ws[j - 1], steps[j - 1]);
    assert Enabled(w, s) && ws[j] == Apply(w, s);
    if j == i + 1 {
      WithdrawalUnlists(w, s, index);
    } else {
      WithdrawnStays(ws, steps, i, j - 1, index);
      UnlistedStep(w, s, index);
    }
    if j < |steps| {
      assert Enabled(ws[j], steps[j]);
      if steps[j].BeginLock? && steps[j].index == index {
        LockGrantedExactlyWhen(ws[j], index, steps[j].asked, steps[j].buyer);
      }
    }
  }
}
