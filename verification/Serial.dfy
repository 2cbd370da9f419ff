/**
 * The marketplace of one token when the calls on that token do not overlap each other. Calls on
 * other tokens, cron runs, deposits, mints and the passing of time interleave freely.
 */
module Serial {
  import opened Wrappers
  import opened Accounts
  import opened TokenLedger
  import opened Market
  import opened World

  /** All the canister knows about one token. */
  datatype View = View(owner: Option<Account>, listing: Option<Listing>, pending: Option<Transaction>)

  function OwnerAt(tokens: Tokens, index: Index): Option<Account> {
    if index < |tokens| && tokens[index].Some? then Some(tokens[index].value.owner) else None
  }

  function At(m: Market, index: Index): View {
    View(OwnerAt(m.tokens, index),
         if index in m.listings then Some(m.listings[index]) else None,
         if index in m.pending then Some(m.pending[index]) else None)
  }

  predicate Live(call: Call, index: Index) {
    call.index == index && !call.phase.Done?
  }

  predicate Quiet(w: World, index: Index) {
    forall c :: 0 <= c < |w.calls| ==> !Live(w.calls[c], index)
  }

  /** A call on the token begins only when no other is outstanding, and no admin deletes its listing. */
  predicate SerialStep(w: World, s: Step, index: Index) {
    && ((s.BeginList? || s.BeginLock? || s.BeginSettle? || s.TransferToken?) && s.index == index ==> Quiet(w, index))
    && (s.DeleteListing? ==> s.index != index)
  }

  ghost predicate SerialRun(ws: seq<World>, steps: seq<Step>, index: Index) {
    IsRun(ws, steps) && forall i {:trigger steps[i]} :: 0 <= i < |steps| ==> SerialStep(ws[i], steps[i], index)
  }

  // ---- The invariant ----

  /** The seller of the listing owns the token; the pending transaction was made for that listing. */
  predicate Coherent(v: View) {
    && (v.listing.Some? ==> v.owner == Some(SellerAccount(v.listing.value)))
    && (v.pending.Some? ==>
          && v.listing.Some?
          && v.pending.value.price == v.listing.value.price
          && v.pending.value.from == SellerAccount(v.listing.value))
  }

  predicate LockedAt(v: View, now: int) {
    v.listing.Some? && v.listing.value.locked.Some? && now <= v.listing.value.locked.value
  }

  /** The call may still lead to a write by `list` or `lock`. */
  predicate Undecided(phase: Phase) {
    match phase
    case Settled(sold) => !sold
    case Ready(ok) => ok
    case Done => false
    case _ => true
  }

  predicate SameOffer(a: Listing, b: Listing) {
    a.seller == b.seller && a.subaccount == b.subaccount && a.price == b.price
  }

  /** What a suspended call relies on when it goes on. */
  predicate Relies(v: View, now: int, call: Call) {
    && (call.phase.Entering? ==> v.pending.Some?)
    && (call.phase.Asked? || call.phase.Answered? ==> v.pending == Some(call.phase.tx))
    && match call.intent
       case Direct => call.phase.Asked? || call.phase.Answered? || call.phase.Done?
       case ForList(caller, sub, _) =>
         Undecided(call.phase) ==>
           && v.owner == Some(Derived(caller, sub))
           && !LockedAt(v, now)
           && (call.phase.Settled? || call.phase.Ready? ==> v.pending.None?)
       case ForLock(listing, _, _) =>
         Undecided(call.phase) ==> v.listing.Some? && SameOffer(v.listing.value, listing)
  }

  ghost predicate Sound(w: World, index: Index) {
    && Coherent(At(w.m, index))
    && (forall c :: 0 <= c < |w.calls| && Live(w.calls[c], index) ==> Relies(At(w.m, index), w.now, w.calls[c]))
    && (forall c, d :: 0 <= c < d < |w.calls| && Live(w.calls[c], index) ==> !Live(w.calls[d], index))
  }

  // ---- Steps that leave the token alone ----

  /** Time only unlocks. */
  lemma Later(w: World, w': World, index: Index)
    requires Sound(w, index) && w'.calls == w.calls && At(w'.m, index) == At(w.m, index) && w'.now >= w.now
    ensures Sound(w', index)
  {
  }

  lemma NewCall(w: World, w': World, call: Call, index: Index)
    requires Sound(w, index) && w'.calls == w.calls + [call] && w'.now == w.now
    requires call.index == index ==>
               Quiet(w, index) && Coherent(At(w'.m, index)) && Relies(At(w'.m, index), w'.now, call)
    requires call.index != index ==> At(w'.m, index) == At(w.m, index)
    ensures Sound(w', index)
  {
  }

  lemma MovedCall(w: World, w': World, c: nat, call: Call, index: Index)
    requires Sound(w, index) && c < |w.calls| && w'.calls == w.calls[c := call] && w'.now == w.now
    requires call.index == w.calls[c].index && !w.calls[c].phase.Done?
    requires call.index == index ==>
               Coherent(At(w'.m, index)) && (Live(call, index) ==> Relies(At(w'.m, index), w'.now, call))
    requires call.index != index ==> At(w'.m, index) == At(w.m, index)
    ensures Sound(w', index)
  {
    assert Live(call, index) ==> Live(w.calls[c], index);
    assert call.index == index ==> Live(w.calls[c], index);
  }

  // ---- Each kind of step ----

  lemma SoundBeginList(w: World, s: Step, index: Index)
    requires Sound(w, index) && Enabled(w, s) && SerialStep(w, s, index) && s.BeginList?
    ensures Sound(Apply(w, s), index)
  {
    NewCall(w, Apply(w, s), Call(s.index, ForList(s.caller, s.from, s.price), Checking), index);
  }

  lemma SoundBeginLock(w: World, s: Step, index: Index)
    requires Sound(w, index) && Enabled(w, s) && SerialStep(w, s, index) && s.BeginLock?
    ensures Sound(Apply(w, s), index)
  {
    var (m, claim) := LockClaim(w.m, s.index, s.asked, w.now);
    NewCall(w, Apply(w, s), Call(s.index, ForLock(claim.listing, claim.bytes, s.buyer), Checking), index);
  }

  lemma SoundBeginSettle(w: World, s: Step, index: Index)
    requires Sound(w, index) && Enabled(w, s) && SerialStep(w, s, index) && s.BeginSettle?
    ensures Sound(Apply(w, s), index)
  {
    NewCall(w, Apply(w, s), Call(s.index, Direct, Asked(w.m.pending[s.index])), index);
  }

  lemma SoundTransfer(w: World, s: Step, index: Index)
    requires Sound(w, index) && Enabled(w, s) && SerialStep(w, s, index) && s.TransferToken?
    ensures Sound(Apply(w, s), index)
  {
    var w' := Apply(w, s);
    if s.index == index {
      assert At(w.m, index).listing.None?;
    } else {
      Later(w, w', index);
    }
  }

  lemma SoundMint(w: World, s: Step, index: Index)
    requires Sound(w, index) && Enabled(w, s) && s.MintToken?
    ensures Sound(Apply(w, s), index)
  {
    var w' := Apply(w, s);
    if NextMint(w.m.tokens) == Some(index) {
      assert At(w.m, index).owner.None?;
      forall c | 0 <= c < |w'.calls| && Live(w'.calls[c], index)
        ensures Relies(At(w'.m, index), w'.now, w'.calls[c])
      {
        assert Relies(At(w.m, index), w.now, w.calls[c]);
      }
    } else {
      Later(w, w', index);
    }
  }

  /** What a settle segment does to the token, and to others. */
  lemma FinishView(m: Market, index: Index, tx: Transaction, balance: nat, now: int, other: Index)
    ensures var (m', end) := SettleFinish(m, index, tx, balance, now);
            && (other != index ==> At(m', other) == At(m, other))
            && (end.Sold? ==> At(m', index) == View(Some(tx.to), None, None))
            && (end.SaleTrapped? ==> m' == m)
            && (end.Insufficient? ==>
                  At(m', index) == if IsLocked(m, index, now) then At(m, index) else At(m, index).(pending := None))
  {
  }

  lemma SoundFinish(w: World, c: nat, index: Index)
    requires Sound(w, index) && Enabled(w, FinishSettle(c))
    ensures Sound(ApplyFinish(w, c), index)
  {
    var call := w.calls[c];
    var w' := ApplyFinish(w, c);
    FinishView(w.m, call.index, call.phase.tx, call.phase.balance, w.now, index);
    assert w'.calls == w.calls[c := w'.calls[c]];
    if call.index == index {
      assert Live(call, index);
      assert Relies(At(w.m, index), w.now, call);
    }
    MovedCall(w, w', c, w'.calls[c], index);
  }

  lemma SoundContinue(w: World, c: nat, index: Index)
    requires Sound(w, index) && Enabled(w, Continue(c))
    ensures Sound(ApplyContinue(w, c), index)
  {
    var call := w.calls[c];
    var w' := ApplyContinue(w, c);
    assert w'.calls == w.calls[c := call.(phase := Done)];
    if call.index == index {
      assert Live(call, index);
      assert Relies(At(w.m, index), w.now, call);
    }
    MovedCall(w, w', c, call.(phase := Done), index);
  }

  lemma SoundMove(w: World, s: Step, index: Index)
    requires Sound(w, index) && Enabled(w, s) && IsCallStep(s) && !s.FinishSettle? && !s.Continue?
    ensures Sound(ApplyCall(w, s), index)
  {
    var w' := ApplyCall(w, s);
    var c := CallOf(s);
    assert w'.calls == w.calls[c := w'.calls[c]] && w'.m == w.m;
    if w.calls[c].index == index {
      assert Live(w.calls[c], index);
      assert Relies(At(w.m, index), w.now, w.calls[c]);
    }
    MovedCall(w, w', c, w'.calls[c], index);
  }

  lemma SoundRest(w: World, s: Step, index: Index)
    requires Sound(w, index) && Enabled(w, s) && SerialStep(w, s, index) && !IsCallStep(s)
    requires !s.BeginList? && !s.BeginLock? && !s.BeginSettle? && !s.TransferToken? && !s.MintToken?
    ensures Sound(Apply(w, s), index)
  {
    var w' := Apply(w, s);
    assert w'.m.tokens == w.m.tokens && w'.m.pending == w.m.pending && w'.now >= w.now;
    assert s.DeleteListing? || w'.m.listings == w.m.listings;
    assert At(w'.m, index) == At(w.m, index);
    Later(w, w', index);
  }

  lemma SoundStep(w: World, s: Step, index: Index)
    requires Sound(w, index) && Enabled(w, s) && SerialStep(w, s, index)
    ensures Sound(Apply(w, s), index)
  {
    match s
    case BeginList(_, _, _, _) => SoundBeginList(w, s, index);
    case BeginLock(_, _, _) => SoundBeginLock(w, s, index);
    case BeginSettle(_) => SoundBeginSettle(w, s, index);
    case TransferToken(_, _, _, _) => SoundTransfer(w, s, index);
    case MintToken(_) => SoundMint(w, s, index);
    case FinishSettle(c) => SoundFinish(w, c, index);
    case Continue(c) => SoundContinue(w, c, index);
    case _ =>
      if IsCallStep(s) {
        SoundMove(w, s, index);
      } else {
        SoundRest(w, s, index);
      }
  }

  /**
   * In every state of every run in which the calls on a token are serial: the seller of its listing
   * owns it, and its pending transaction has a listing with the same price, sold by the owner.
   */
  lemma {:induction false} SerialMarketplace(ws: seq<World>, steps: seq<Step>, i: nat, index: Index)
    requires SerialRun(ws, steps, index) && i < |ws|
    requires Coherent(At(ws[0].m, index)) && Quiet(ws[0], index)
    ensures Coherent(At(ws[i].m, index))
    ensures Sound(ws[i], index)
  {
    if i > 0 {
      SerialMarketplace(ws, steps, i - 1, index);
      SoundStep(ws[i - 1], steps[i - 1], index);
    }
  }
}
