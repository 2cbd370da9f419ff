/** What the token ledger is at one moment, and what its operations do to it. */
module TokenLedger {
  import opened Wrappers
  import opened Accounts

  datatype Token = Token(createdAt: int, owner: Account, txId: string)

  type Tokens = seq<Option<Token>>

  /** The lowest index that holds no token. */
  function NextMint(tokens: Tokens): (r: Option<nat>)
    ensures r.None? ==> forall k :: 0 <= k < |tokens| ==> tokens[k].Some?
    ensures r.Some? ==>
              && r.value < |tokens|
              && tokens[r.value].None?
              && forall k :: 0 <= k < r.value ==> tokens[k].Some?
  {
    NextMintFrom(tokens, 0)
  }

  function NextMintFrom(tokens: Tokens, i: nat): (r: Option<nat>)
    requires i <= |tokens|
    ensures r.None? ==> forall k :: i <= k < |tokens| ==> tokens[k].Some?
    ensures r.Some? ==>
              && i <= r.value < |tokens|
              && tokens[r.value].None?
              && forall k :: i <= k < r.value ==> tokens[k].Some?
    decreases |tokens| - i
  {
    if i == |tokens| then None
    else if tokens[i].None? then Some(i)
    else NextMintFrom(tokens, i + 1)
  }

  predicate IsOwner(tokens: Tokens, account: Account, index: nat)
    requires index < |tokens|
  {
    tokens[index].Some? && tokens[index].value.owner == account
  }

  /** The new ledger and the minted index, or no index when the supply is used up. */
  function Mint(tokens: Tokens, to: Account, now: int): (Tokens, Option<nat>) {
    match NextMint(tokens)
    case Some(i) => (tokens[i := Some(Token(now, to, "N/A"))], Some(i))
    case None => (tokens, None)
  }

  /** A transfer traps unless `from` holds the token. */
  function Transfer(tokens: Tokens, index: nat, from: Account, to: Account): Outcome<Tokens> {
    if index >= |tokens| then Trap
    else if !IsOwner(tokens, from, index) then Trap
    else Value(tokens[index := Some(Token(tokens[index].value.createdAt, to, "N/A"))])
  }

  /** Every token below every minted one is minted. */
  predicate MintedPrefix(tokens: Tokens) {
    forall i, j :: 0 <= i < j < |tokens| && tokens[j].Some? ==> tokens[i].Some?
  }
}
