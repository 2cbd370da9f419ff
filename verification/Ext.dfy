/** The EXT interface of the canister: the second way a token changes its owner. */
module Ext {
  import opened Accounts
  import opened Market
  import Tokens
  import Entrepot

  class Make {
    const tokens: Tokens.Factory
    const entrepot: Entrepot.Factory

    constructor (tokens: Tokens.Factory, entrepot: Entrepot.Factory)
      requires entrepot.tokens == tokens
      ensures this.tokens == tokens && this.entrepot == entrepot
    {
      this.tokens := tokens;
      this.entrepot := entrepot;
    }

    /** The owner may give an unlisted token away. */
    method Transfer(caller: Account, index: Index, from: Account, to: Account) returns (answer: Answer)
      requires entrepot.tokens == tokens
      modifies tokens.ledger
      ensures (entrepot.Model(), answer) == ExtTransfer(old(entrepot.Model()), caller, index, from, to)
    {
      if index >= tokens.ledger.Length {
        return Trapped;
      }
      match tokens.ledger[index] {
        case None =>
          return Refused("Token owner doesn't exist.");
        case Some(token) =>
          if token.owner != from {
            return Refused("Unauthorized");
          }
          if from != caller {
            return Refused("Only the owner can do that.");
          }
          if index in entrepot.listings {
            return Refused("This token is currently listed for sale!");
          }
          var moved := tokens.Transfer(index, caller, to);
          answer := if moved.Trap? then Trapped else Proceed;
      }
    }
  }
}
