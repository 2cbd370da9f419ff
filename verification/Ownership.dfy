/** How tokens come to have owners, and change them, over all runs. */
module Ownership {
  import opened Wrappers
  import opened Accounts
  import opened TokenLedger
  import opened Market
  import opened World
  import opened Serial
  import opened Sales

  /** The token at an index, if minted. */
  function TokenAt(tokens: Tokens, index: Index): Option<Token> {
    if index < |tokens| then tokens[index] else None
  }

  /**
   * An owner changes only by the mint of the next unminted token, by an EXT transfer from its owner
   * while it is not listed, or by a settlement whose `from` owns it.
   */
  lemma OwnerChanges(w: World, s: Step, index: Index)
    requires Enabled(w, s)
    ensures TokenAt(Apply(w, s).m.tokens, index) != TokenAt(w.m.tokens, index) ==>
              var (before, after) := (OwnerAt(w.m.tokens, index), OwnerAt(Apply(w, s).m.tokens, index));
              || (s.MintToken? && NextMint(w.m.tokens) == Some(index) && before == None && after == Some(s.receiver))
              || (s.TransferToken? && s.index == index && index !in w.m.listings
                  && before == Some(s.sender) && after == Some(s.receiver))
              || (s.FinishSettle? && w.calls[s.call].index == index
                  && before == Some(w.calls[s.call].phase.tx.from) && after == Some(w.calls[s.call].phase.tx.to))
    ensures |Apply(w, s).m.tokens| == |w.m.tokens|
    ensures TokenAt(w.m.tokens, index).Some? ==>
              && TokenAt(Apply(w, s).m.tokens, index).Some?
              && TokenAt(Apply(w, s).m.tokens, index).value.createdAt == TokenAt(w.m.tokens, index).value.createdAt
  {
    if s.FinishSettle? {
      var call := w.calls[s.call];
      AllOrNothing(w.m, call.index, call.phase.tx, call.phase.balance, w.now);
    } else if IsCallStep(s) {
      assert Apply(w, s).m.tokens == w.m.tokens;
    }
  }

  lemma MintedStep(w: World, s: Step, index: Index)
    requires Enabled(w, s) && TokenAt(w.m.tokens, index).Some?
    ensures TokenAt(Apply(w, s).m.tokens, index).Some?
    ensures TokenAt(Apply(w, s).m.tokens, index).value.createdAt == TokenAt(w.m.tokens, index).value.createdAt
  {
    OwnerChanges(w, s, index);
  }

  /** A minted token is never unminted, and keeps its time of creation. */
  lemma {:induction false} MintedForGood(ws: seq<World>, steps: seq<Step>, i: nat, j: nat, index: Index)
    requires IsRun(ws, steps) && i <= j < |ws|
    requires TokenAt(ws[i].m.tokens, index).Some?
    ensures TokenAt(ws[j].m.tokens, index).Some?
    ensures TokenAt(ws[j].m.tokens, index).value.createdAt == TokenAt(ws[i].m.tokens, index).value.createdAt
    decreases j
  {
    if i < j {
      MintedForGood(ws, steps, i, j - 1, index);
      MintedStep(ws[j - 1], steps[j - 1], index);
    }
  }

  /** From an empty ledger, and from any whose minted tokens come first, the minted tokens always come first. */
  lemma {:induction false} MintedStayPrefix(ws: seq<World>, steps: seq<Step>, i: nat)
    requires IsRun(ws, steps) && i < |ws| && MintedPrefix(ws[0].m.tokens)
    ensures MintedPrefix(ws[i].m.tokens)
  {
    if i > 0 {
      var (w, s) := (ws[i - 1], steps[i - 1]);
      MintedStayPrefix(ws, steps, i - 1);
      forall a, b | 0 <= a < b < |ws[i].m.tokens| && ws[i].m.tokens[b].Some?
        ensures ws[i].m.tokens[a].Some?
      {
        OwnerChanges(w, s, a);
        OwnerChanges(w, s, b);
      }
    }
  }

  /** The number of minted tokens of a ledger whose minted tokens come first is the next index to mint. */
  lemma NextMintOfPrefix(tokens: Tokens, index: Index)
    requires MintedPrefix(tokens) && index < |tokens|
    ensures tokens[index].Some? <==> NextMint(tokens).None? || index < NextMint(tokens).value
  {
  }

  // ---- The last hand-over ----

  /** To whom a step hands the token: an EXT transfer, a completed settlement or the mint of the token. */
  function Receiver(w: World, s: Step, index: Index): Option<Account>
    requires Enabled(w, s)
  {
    match s
    case TransferToken(k, _, _, receiver) => if k == index then Some(receiver) else None
    case FinishSettle(c) =>
      var call := w.calls[c];
      if call.index == index && Completed(w, c) then Some(call.phase.tx.to) else None
    case MintToken(receiver) => if NextMint(w.m.tokens) == Some(index) then Some(receiver) else None
    case _ => None
  }

  /** The settlement that goes on is a sale. */
  predicate Completed(w: World, c: nat)
    requires Enabled(w, FinishSettle(c))
  {
    var call := w.calls[c];
    SettleFinish(w.m, call.index, call.phase.tx, call.phase.balance, w.now).1.Sold?
  }

  /** A token belongs to whom the step has handed it, or else to whom it belonged. */
  function After(handed: Option<Account>, before: Option<Account>): Option<Account> {
    if handed.Some? then handed else before
  }

  /** To whom the last of the steps i to j - 1 that handed the token over gave it. */
  ghost function LastReceiver(ws: seq<World>, steps: seq<Step>, i: nat, j: nat, index: Index): Option<Account>
    requires IsRun(ws, steps) && i <= j <= |steps|
    decreases j
  {
    if j == i then None
    else
      assert Enabled(ws[j - 1], steps[j - 1]);
      After(Receiver(ws[j - 1], steps[j - 1], index), LastReceiver(ws, steps, i, j - 1, index))
  }

  lemma ReceiverCall(w: World, s: Step, index: Index)
    requires Enabled(w, s) && IsCallStep(s)
    ensures OwnerAt(ApplyCall(w, s).m.tokens, index) == After(Receiver(w, s, index), OwnerAt(w.m.tokens, index))
  {
    if s.FinishSettle? {
      var call := w.calls[s.call];
      AllOrNothing(w.m, call.index, call.phase.tx, call.phase.balance, w.now);
    }
  }

  lemma ReceiverOwns(w: World, s: Step, index: Index)
    requires Enabled(w, s)
    ensures OwnerAt(Apply(w, s).m.tokens, index) == After(Receiver(w, s, index), OwnerAt(w.m.tokens, index))
  {
    if IsCallStep(s) {
      ReceiverCall(w, s, index);
    }
  }

  /** Over any run a token belongs to the last it was handed to, or to its first owner when it never was. */
  lemma {:induction false} OwnerIsLastReceiver(ws: seq<World>, steps: seq<Step>, i: nat, j: nat, index: Index)
    requires IsRun(ws, steps) && i <= j <= |steps|
    ensures OwnerAt(ws[j].m.tokens, index) ==
              After(LastReceiver(ws, steps, i, j, index), OwnerAt(ws[i].m.tokens, index))
    decreases j
  {
    if i < j {
      assert Enabled(ws[j - 1], steps[j - 1]) && ws[j] == Apply(ws[j - 1], steps[j - 1]);
      OwnerIsLastReceiver(ws, steps, i, j - 1, index);
      ReceiverOwns(ws[j - 1], steps[j - 1], index);
    }
  }

  // ---- Mints ----

  /** A mint gives the lowest free index to the receiver, created now, and leaves all other tokens alone. */
  lemma MintMakes(w: World, receiver: Account)
    requires Enabled(w, MintToken(receiver))
    ensures exists index ::
              && 0 <= index < |w.m.tokens| && w.m.tokens[index].None?
              && (forall k :: 0 <= k < index ==> w.m.tokens[k].Some?)
              && Apply(w, MintToken(receiver)).m.tokens == w.m.tokens[index := Some(Token(w.now, receiver, "N/A"))]
  {
    var index := NextMint(w.m.tokens).value;
    assert w.m.tokens[index].None?;
  }

  /** Over any run a token that step i minted has that step's time as the time of its creation. */
  lemma CreatedWhenMinted(ws: seq<World>, steps: seq<Step>, i: nat, j: nat, index: Index)
    requires IsRun(ws, steps) && i < j <= |steps| && steps[i].MintToken?
    requires index < |ws[i].m.tokens| && ws[i].m.tokens[index].None? && TokenAt(ws[i + 1].m.tokens, index).Some?
    ensures TokenAt(ws[j].m.tokens, index).Some?
    ensures TokenAt(ws[j].m.tokens, index).value.createdAt == ws[i].now
  {
    assert Enabled(ws[i], steps[i]) && ws[i + 1] == Apply(ws[i], steps[i]);
    MintMakes(ws[i], steps[i].receiver);
    MintedForGood(ws, steps, i + 1, j, index);
  }
}
