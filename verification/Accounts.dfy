/** Principals, subaccounts and account identifiers. */
module Accounts {
  import opened Wrappers
  import opened Bytes

  datatype Principal = Principal(id: nat)

  type SubAccount = seq<byte>

  /**
   * An account identifier, case-folded. `Derived` is the identifier hashed from a principal and a
   * subaccount, taken to be collision free; `Plain` is any text that is not such a hash.
   */
  datatype Account = Derived(owner: Principal, sub: Option<SubAccount>) | Plain(text: string)
}
