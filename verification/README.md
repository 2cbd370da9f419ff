# Verification of the legends canister

A Dafny model of the canister's marketplace, token ledger, asset store and hashing code, with proofs
of what they promise. `dafny verify dfyconfig.toml` checks everything.

## What is modelled

**The marketplace as a concurrent protocol.** A buyer locks a listed token, pays into a fresh ledger
subaccount, and anyone may then settle. A settlement moves the token and queues three payments, which
a heartbeat drains. Every call gives up control at each `await`, so other calls run in between.

- `Market` gives each code segment between two awaits as a function on the canister state. A segment
  that traps leaves the state as it was.
- `Entrepot`, `Tokens` and `Ext` are the classes of the program. Each method is proved to do exactly
  what its segment function says, including where a trap puts the fields back.
- `World` puts the segments of many suspended calls and cron runs side by side with the ICP ledger.
  Every claim about "all runs" is about every list of steps this system can make.
- `Disbursements`, `Replies`, `Solvency`, `SettleOnce`, `Freshness`, `Serial`, `Sales`, `Listings`,
  `Locks` and `Ownership` prove what holds in all runs. `Plays` runs a given list of steps:
  `Purchase` shows that an undisturbed sale succeeds, `CronRuns` what an undisturbed cron run
  leaves, and `Races` which properties fail when calls overlap, and exactly when.

A run is *serial* for a token when a call on that token begins only while no other is suspended, and
no admin deletes its listing. Calls on other tokens, cron runs, deposits and mints still interleave.
What holds of serial runs needs that: see `Races.ListRace`.

**Digests.** `Sha224Spec` is SHA-224 as written in sections 4.1.2, 4.2.2, 5.1.1, 5.3.2, 6.2.2 and
6.3 of FIPS 180-4, `Sha224Constants` derives its constants from the primes, and `Sha224` is the
streaming class. `Crc32` sets the table-driven loop against the bit-at-a-time checksum of section 8
of RFC 1952.

**The rest.** `Shuffle` and `Tokens` cover the metadata shuffle, `AssetIndex` and `Assets` the asset
buffer with its filename index, `Hex` and `Stoic` two codecs.

## Results where the code is not what one would expect

- `list` checks the owner before its await and writes after it. A token given away in between is
  listed by someone who no longer owns it (`Races.ListRace`). The listing is right exactly when nobody
  was handed the token in between, or the last one handed it is the caller
  (`Races.ListedByOwnerExactlyWhen`).
- Two settlements of one transaction may both complete. The second does exactly when the token has
  come back to the seller since the first sale and the funds it read still fit
  (`Races.OverlapSellsTwiceExactlyWhen`): the buyer's account is the seller's, or the buyer gave the
  token back (`Races.ReturnedTokenSellsTwice`). What is then owed exceeds the balance by the sums
  both have read, less what was paid in (`Races.OverlapIsInsolvent`). In general the balance covers
  all jobs exactly when sales have not read more than came in (`Solvency.CoveredExactlyWhen`).
- The transaction counter restarts at 0 while pending transactions and finalized records are
  restored. Subaccounts still tell all transactions apart (`Freshness.TransactionsAreDistinct`), ids
  do not: `Freshness.IdsCollideExactlyWhen` says when two have one id, and `Purchase.LockReusesId`
  that it happens. A record is that of the transaction last sold under its id
  (`Freshness.RecordsAreLastSales`), so a sale's record is replaced exactly when another is sold under
  the id (`SettleOnce.RecordKeptUntilNextSale`), and a restored record exactly when any is
  (`Freshness.RestoredRecordKept`).
- `lowestPriceSale` starts at 0 and never leaves it (`Sales.LowestFromZero`). It is the least price
  exactly when it started at or above that price (`Sales.LowestIsLeast`).
- Deleting an asset forgets its filename but blanks the *first* record of that name, which need not be
  the one that was served (`AssetIndex.DeleteErasesExactly`). A record missed in this way is served
  again after a backup is restored (`AssetIndex.DeletedComesBackExactly`).
- Purging assets by tag forgets the filenames of the assets it keeps
  (`AssetIndex.KeptAreLost`), and leaves a wrong index entry for every name it removes altogether
  (`AssetIndex.PurgeTagKeepsIndexExactly`). The comments call the index a denormalized lookup of the
  buffer; the code is followed here.
- The shuffle may change the metadata of a minted token (`Shuffle.MintedMayMove`), as a note in the
  source says. The token keeps it exactly when no draw hits its index
  (`Shuffle.MintedStaysExactlyWhen`).

## Abstractions

- Account identifiers are compared without regard to case, so an account is either derived from a
  principal and a subaccount (injectively) or some other text. The library that derives them is not
  part of this model.
- Time never goes back. The ledger debits amount plus 10_000 and refuses for lack of funds exactly
  when that is not covered. A transfer to the canister itself appears as a deposit.
- `Nat64` overflow is a trap wherever the program computes with prices, balances and volumes.
- A call may be abandoned at any await (`World.Step.Abort`): an inner call failed. The history insert
  after a sale is such an await, and the sale is final before it.
- An asset index out of range traps. Hash maps are maps, lists and buffers are sequences.
- The text of a payment's recipient decodes exactly when it is an even number of hexadecimal digits.
- Admin checks, the caller, the clock, random bytes and ledger answers are parameters.
- A longer method of the program is divided into several methods where that keeps a proof readable.

## Model

| member | source | states |
|---|---|---|
| Freshness.SubAccountIsBigEndian | src/Entrepot/lib.mo:437-444 | the subaccount of a number is its 32-byte big-endian form |
| Freshness.SubAccountInjective | src/Entrepot/lib.mo:437-451 | two numbers share a subaccount if and only if they agree modulo 2^256 |
| Freshness.FreshRun | src/Entrepot/lib.mo:447-451 | in every state of a lifetime, restored, created, pending, sold and reserved transactions are kept apart by subaccount, as long as the counter has not gone round |
| Freshness.TransactionsAreDistinct | src/Entrepot/lib.mo:631-665 | any two transactions of a lifetime, restored pending ones included, differ in their subaccount bytes; those created in it differ in id too |
| Freshness.IdsCollideExactlyWhen | src/Entrepot/lib.mo:64-64 | another transaction of the lifetime has the id of a given one if and only if another restored one has it, or the given one is restored and the counter has passed its id |
| Freshness.FirstIdsAreFresh | src/Entrepot/lib.mo:657-658 | in a first lifetime all pending and finalized ids lie below the counter, so the next one is free |
| Freshness.RecordsAreLastSales | src/Entrepot/lib.mo:723-735 | under any interleaving each finalized record is that of the transaction last sold under its id, or else the restored one |
| Freshness.RecordKeptExactlyWhen | src/Entrepot/lib.mo:723-735 | the record of a sale is later still that of its transaction if and only if that transaction was last sold under the id |
| SettleOnce.RecordKeptUntilNextSale | src/Entrepot/lib.mo:723-735 | without overlapping settlements: if and only if nothing was sold under the id since |
| Freshness.NoRecordOverwritten | src/Entrepot/lib.mo:721-735 | the record of a sale is never replaced by another transaction's as long as no transaction of the lifetime shares its id |
| Freshness.RestoredRecordKept | src/Entrepot/lib.mo:64-70 | a restored record survives if and only if no transaction, created since or restored as pending, is sold under its id |
| Purchase.LockReusesId | src/Entrepot/lib.mo:645-658 | when a restored pending transaction has the id the counter stands at, the next lock gives that id to another transaction |
| Purchase.SecondSaleReplaces | src/Entrepot/lib.mo:723-735 | of two sales under one id the second takes over the record of the first |
| Entrepot.Factory.constructor | src/Entrepot/lib.mo:64-115 | a new canister takes over every stable field and starts the id counter at 0 |
| Entrepot.Factory.GetNextSubAccount | src/Entrepot/lib.mo:447-451 | the counter moves on by one and the bytes are those of the new value |
| Entrepot.Factory.ListBegin | src/Entrepot/lib.mo:512-534 | up to its await `list` writes nothing and answers by owner and lock |
| Entrepot.Factory.ListResume | src/Entrepot/lib.mo:535-561 | after its await `list` writes the listing, or removes it, without another check |
| Listings.ListGrantedExactlyWhen | src/Entrepot/lib.mo:525-531 | a `list` call is granted if and only if the caller owns the token and its listing is under no lock |
| Listings.ListRefusals | src/Entrepot/lib.mo:518-531 | each refusal of `list`, by its text, if and only if its reason holds |
| Listings.WithdrawalUnlists | src/Entrepot/lib.mo:553-556 | a resumed `list` without a price removes the listing of its token and changes nothing else |
| Listings.WithdrawnStays | src/Entrepot/lib.mo:553-556 | over any run the token then stays unlisted, and cannot be locked, until a `list` with a price resumes |
| Purchase.UnlistCompletes | src/Entrepot/lib.mo:512-561 | the owner's `list` call without a price takes an unlocked token off the market, from every such state |
| Entrepot.Factory.LockBegin | src/Entrepot/lib.mo:608-640 | a refused lock changes nothing; a granted one takes a fresh subaccount and locks exactly that listing for two minutes |
| Listings.LockGrantedExactlyWhen | src/Entrepot/lib.mo:610-630 | a lock is granted if and only if the token is listed at the price asked and under no lock |
| Listings.LockRefusals | src/Entrepot/lib.mo:610-630 | each refusal of `lock`, by its text, if and only if its reason holds; a refused lock changes nothing |
| Listings.LockTakesEffect | src/Entrepot/lib.mo:631-640 | a granted lock advances the counter by one, locks the listing for 120 s, and changes nothing else |
| Entrepot.Factory.LockResume | src/Entrepot/lib.mo:642-665 | the new pending transaction carries the price and seller of the listing that was locked, whatever the listing is now |
| Listings.LockMakes | src/Entrepot/lib.mo:593-665 | over any run, the transaction a lock makes is at the price asked, goes to that buyer from the seller then listed, is paid into subaccount 2^32 + counter + 1, and has the id and time of its creation |
| Purchase.LockAfterUnpaid | src/Entrepot/lib.mo:369-400 | an unpaid transaction past its lock does not stand in the way: the new lock completes and replaces it |
| Purchase.UnpaidIsGivenUp | src/Entrepot/lib.mo:700-707 | a call that finds it unpaid and unlocked deletes it and goes on |
| Purchase.PaidSettlesInstead | src/Entrepot/lib.mo:383-388 | a call that finds the earlier transaction paid settles that one and itself records nothing |
| Entrepot.Factory.SettleBegin | src/Entrepot/lib.mo:687-694 | `settle` goes on exactly with the pending transaction of the token |
| Entrepot.Factory.PayFeeRecipients | src/Entrepot/lib.mo:710-717 | the loop queues one job per fee and leaves what the fee split leaves, trapping when it does |
| Entrepot.Factory.SettleResume | src/Entrepot/lib.mo:697-753 | the whole segment, rollback included: insufficient funds drop an unlocked pending transaction, a trap undoes everything, else the sale is written |
| Entrepot.Factory.Sale | src/Entrepot/lib.mo:709-752 | the writes of a sale in order; when one traps the token ledger and the counters are still untouched |
| Sales.PayFeesSplits | src/Entrepot/lib.mo:710-717 | the fee loop queues exactly the amounts of the fee split, in reverse order, and traps exactly when the split does |
| Sales.SellsExactlyWhen | src/Entrepot/lib.mo:697-752 | a settlement completes if and only if the balance covers price and ledger fees, nothing overflows, and `from` owns the token |
| Sales.AllOrNothing | src/Entrepot/lib.mo:697-752 | a completed settlement has moved the token, queued the jobs, finalized and counted the transaction and removed the listing; any other has done none of it, and gives up only an unpaid transaction whose lock is over |
| Sales.SaleJobsAddUp | src/Entrepot/lib.mo:709-719 | the three payments and 10_000 for each add up to exactly the balance; rounding favours the seller by less than two units |
| Sales.SaleJobsWrittenOut | src/Entrepot/lib.mo:34-37 | with accounts and numbers written out: 2% and 1% of the balance less 30_000 to the two fee accounts, the rest to the seller |
| Sales.SalesAddUp | src/Entrepot/lib.mo:696-752 | in every state of every run, jobs ever queued are those of the sales and those restored, the former's amounts plus 30_000 a sale equal the balances read, the volume is the sum of prices, and the record prices are maximum and minimum with the start |
| Sales.SaleMovesToken | src/Entrepot/lib.mo:749-749 | a sale is recorded exactly by the settle segment that moves the token from seller to buyer; a settle segment without a sale leaves ledger and queue alone |
| Sales.SerialSaleSettles | src/Entrepot/lib.mo:674-776 | in serial runs a resumed settlement with enough funds and no overflow always completes; the ownership assert never stops it |
| Sales.LowestFromZero | src/Entrepot/lib.mo:740-743 | started at 0, the lowest sale price stays 0 whatever is sold |
| Sales.LowestIsLeast | src/Entrepot/lib.mo:740-743 | the counter is the least price sold if and only if that price does not exceed its start |
| FeeSplit.SplitIsExact | src/Entrepot/lib.mo:709-719 | for every fee table of at most 100%: completes exactly when no product overflows, every share is the floor, nothing is lost, and the seller's excess is at least 0 and below one unit per fee |
| FeeSplit.OverfullTableTraps | src/Entrepot/lib.mo:709-717 | a table above 100% can make the subtraction underflow, so the bound is needed |
| Serial.SerialMarketplace | src/Entrepot/lib.mo:369-400 | in every state of a serial run each listing's seller owns the token, and each pending transaction has a listing of the same price whose seller is its `from` |
| Serial.SoundTransfer | src/Ext/lib.mo:65-99 | an EXT transfer between serial calls keeps the marketplace invariant |
| Serial.SoundFinish | src/Entrepot/lib.mo:696-752 | every end of a settlement keeps the marketplace invariant and what other calls rely on |
| Serial.SoundContinue | src/Entrepot/lib.mo:535-665 | a resumed `list` or `lock` keeps the marketplace invariant in serial runs |
| Purchase.PurchaseCompletes | src/Entrepot/lib.mo:512-752 | from every state where the seller owns an unlocked token without pending sale, list, lock, enough payment and settle give the buyer the token, queue the payments of the sum paid and record the sale under the id the counter stood at |
| Purchase.PaymentCompletes | src/Entrepot/lib.mo:674-752 | a pending transaction whose `from` owns the token is delivered once its subaccount covers price and ledger fees |
| Races.ListRace | src/Entrepot/lib.mo:512-561 | from every unlisted token without pending sale there is an interleaving after which the listing's seller does not own it |
| Races.ListedByOwnerExactlyWhen | src/Entrepot/lib.mo:512-561 | over any run, a resumed `list` leaves the token listed by its owner if and only if nobody was handed the token since the call began, or the last one handed it is the caller |
| Races.OverlapSellsTwiceExactlyWhen | src/Entrepot/lib.mo:674-776 | over any run, a settlement of an already sold transaction completes too if and only if the last hand-over since that sale, the sale included, gave the token to the seller and the funds it read cover it and fit |
| Races.OverlapWithoutHandOver | src/Entrepot/lib.mo:674-776 | with no hand-over in between: if and only if buyer and seller account are the same and the funds fit |
| Races.ReturnedTokenSellsTwice | src/Entrepot/lib.mo:674-776 | it happens with different accounts, when the buyer gives the token back before the second settlement resumes |
| Races.OverlapIsInsolvent | src/Entrepot/lib.mo:674-776 | then what is owed exceeds the balance by at least the two sums read, less all that was paid in or is lost |
| SettleOnce.SoldAtMostOnce | src/Entrepot/lib.mo:674-776 | when no two outstanding settlements hold one transaction, every transaction, restored pending ones included, is sold at most once in a lifetime |
| SettleOnce.SalesAreCovered | src/Entrepot/lib.mo:205-286 | in such a lifetime, when restored payments are covered and come from subaccounts of no pending transaction, each subaccount covers amount plus fee of all its outstanding jobs, and the insufficient-funds branch is never taken |
| Solvency.SolventStep | src/Entrepot/lib.mo:205-286 | every step of the system keeps the solvency invariant of a subaccount |
| Solvency.BalanceCoversJobs | src/Entrepot/lib.mo:205-286 | under any interleaving, as long as at most one sale came from a subaccount from which nothing was owed at the start, its balance covers all jobs queued, in flight or set aside |
| Solvency.NeverInsufficient | src/Entrepot/lib.mo:251-254 | the ledger never answers a payment from a covered subaccount with insufficient funds |
| Solvency.SaleCost | src/Entrepot/lib.mo:709-719 | the jobs a sale queues cost, fees included, exactly the balance it read |
| Solvency.BooksBalance | src/Entrepot/lib.mo:205-298 | over any run from any start, what is owed from a subaccount, dropped or deleted and what was paid in equal what is there and what its sales read |
| Solvency.CoveredExactlyWhen | src/Entrepot/lib.mo:205-298 | under any interleaving the balance covers all jobs if and only if the sales have not read more than was paid in, apart from jobs dropped or deleted |
| Disbursements.JobsAreConserved | src/Entrepot/lib.mo:205-298 | as multisets: queue, jobs held by cron runs, completed, dropped and deleted jobs are always exactly the jobs ever queued |
| Disbursements.BalancedStep | src/Entrepot/lib.mo:205-298 | every step keeps the sum of any measure over all jobs |
| Disbursements.PendingCountIsInFlight | src/Entrepot/lib.mo:204-284 | at every suspension point `pendingCount` is the number of transfers in flight, and not negative |
| Replies.ReplyDecides | src/Entrepot/lib.mo:246-277 | answer by answer: a paid job is completed, one with insufficient funds, a duplicate or too old is dropped, and one with a bad fee, created in the future or rejected is still queued, in flight or set aside |
| Replies.RepliesDecide | src/Entrepot/lib.mo:246-277 | over any run the completed jobs are exactly those answered as paid, and the dropped ones exactly those answered in the three final ways |
| Replies.OutstandingIsTheRest | src/Entrepot/lib.mo:205-298 | what is still to be paid is all that was queued, less the jobs so answered or deleted |
| Replies.CronRunsApart | src/Entrepot/lib.mo:207-212 | over any run two cron runs begin at least five seconds apart, never on an empty queue |
| Replies.CronBeginsExactlyWhen | src/Entrepot/lib.mo:207-212 | a cron run begins if and only if a job is queued and the last run began at least five seconds ago |
| Replies.DecodableExactlyWhen | src/Entrepot/lib.mo:232-244 | a job can be sent if and only if its recipient is a hashed identifier or an even number of hexadecimal digits |
| Replies.PaymentDebits | src/Entrepot/lib.mo:226-231 | a payment takes its amount and 10_000 from its own subaccount and nothing from others |
| Disbursements.PumpWeigh | src/Entrepot/lib.mo:218-245 | popping moves every job to the queue, the failed list or the transfer, and loses none |
| Disbursements.KeepWeigh | src/Entrepot/lib.mo:288-298 | kept and deleted jobs together weigh what the queue did, in any measure |
| Market.KeepsTheOthers | src/Entrepot/lib.mo:295-297 | an admin deletion keeps exactly the jobs that do not match, in their order |
| Market.DropsTheMatching | src/Entrepot/lib.mo:295-297 | the jobs it drops are exactly those that match |
| Entrepot.Factory.Advance | src/Entrepot/lib.mo:218-245 | popping goes on past every recipient that is no hexadecimal text, and the next suspension has one more transfer in flight |
| Entrepot.Factory.CronBegin | src/Entrepot/lib.mo:205-226 | the throttle: nothing happens on an empty queue or within five seconds; else the first job is taken |
| Entrepot.Factory.CronReply | src/Entrepot/lib.mo:246-285 | by the ledger's answer a job is finished, dropped or put aside, and the next one is taken |
| Entrepot.Factory.CronDisbursements | src/Entrepot/lib.mo:205-286 | an uninterrupted run goes round once per job found and leaves exactly the jobs to retry, the last processed first |
| Entrepot.RetryOrderSelects | src/Entrepot/lib.mo:246-285 | a job is left for a retry if and only if its recipient does not decode, or it was answered with a bad fee, a creation in the future or a rejected call |
| CronRuns.CronRunLeaves | src/Entrepot/lib.mo:205-286 | the same run taken segment by segment, with a ledger step and a reply for each job sent, leaves exactly the jobs to retry, the last processed first |
| Entrepot.Factory.DeleteDisbursementJob | src/Entrepot/lib.mo:288-298 | an admin's deletion leaves what `Keep` keeps of the queue; anyone else traps |
| Entrepot.Factory.DeleteListing | src/Entrepot/lib.mo:478-484 | an admin removes one listing; anyone else traps |
| Locks.LocksApart | src/Entrepot/lib.mo:610-640 | in every run two successful locks on a token are more than 120 s apart unless a `list` on it resumed in between |
| Locks.LockedListingStands | src/Entrepot/lib.mo:347-365 | in serial runs a locked listing keeps price, seller, subaccount and expiry until it expires, unless the token is sold |
| Locks.SerialLocksApart | src/Entrepot/lib.mo:31-31 | in serial runs two locks within 120 s have a sale of the token between them |
| Locks.LockReserves | src/Entrepot/lib.mo:642-665 | in a sound state a resumed `lock` leaves its transaction pending, and no suspended call that could replace it |
| Locks.ReservationStands | src/Entrepot/lib.mo:593-707 | in serial runs the buyer's transaction stays the pending one until his lock expires, unless the token is sold |
| Locks.ReservedPaymentDelivers | src/Entrepot/lib.mo:674-752 | so a settlement that resumes in that time holds that transaction, and delivers when it is paid |
| Ownership.OwnerChanges | src/Tokens/lib.mo:317-333 | in any state and step, a token changes only by the mint of the next free index, an EXT transfer by its owner while unlisted, or a settlement whose `from` is the owner |
| Ownership.OwnerIsLastReceiver | src/Tokens/lib.mo:317-333 | over any run a token belongs to the last account it was handed by a mint, an EXT transfer or a completed settlement, or still to its first owner |
| Ownership.MintedForGood | src/Tokens/lib.mo:317-333 | over any run a minted token stays minted and keeps `createdAt` |
| Ownership.MintedStayPrefix | src/Tokens/lib.mo:219-249 | over any run from a prefix-minted ledger the minted tokens form a prefix |
| Ownership.MintMakes | src/Tokens/lib.mo:219-230 | a mint gives the lowest free index to the receiver, created at that time, and changes no other token |
| Ownership.CreatedWhenMinted | src/Tokens/lib.mo:219-230 | over any run a token minted at a step keeps that step's time as its `createdAt` |
| Ownership.NextMintOfPrefix | src/Tokens/lib.mo:72-79 | in such a ledger an index is minted if and only if it lies below the next one to mint |
| Tokens.MintedAndUnmintedPartition | src/Tokens/lib.mo:81-103 | the minted and unminted indices are together the whole supply, each index once |
| Tokens.NextMintCounts | src/Tokens/lib.mo:72-103 | in a prefix-minted ledger the next index is the number of minted tokens |
| Tokens.RegistryListsMinted | src/Ext/lib.mo:182-200 | the registry's indices are exactly the minted ones, in order |
| Tokens.Registry | src/Ext/lib.mo:182-200 | a pair is listed if and only if the ledger holds a token of that owner there; indices increase |
| Tokens.OwnedBy | src/Ext/lib.mo:222-240 | an index is listed if and only if the account owns it, in increasing order |
| Tokens.Factory.GetNextMintIndex | src/Tokens/lib.mo:72-79 | the scan returns the lowest free index |
| Tokens.Factory.GetUnminted | src/Tokens/lib.mo:81-91 | the scan returns the free indices in order |
| Tokens.Factory.GetMinted | src/Tokens/lib.mo:93-103 | the scan returns the minted indices in order |
| Tokens.Factory.GetRegistry | src/Ext/lib.mo:182-200 | the counter scan pairs each minted index with its owner |
| Tokens.Factory.TokensOf | src/Ext/lib.mo:222-240 | the counter scan returns the indices the account owns |
| Tokens.Factory.MintAt | src/Tokens/lib.mo:129-148 | minting a chosen index succeeds exactly when it is free, and traps outside the supply |
| Tokens.Factory.Mint | src/Tokens/lib.mo:219-249 | the lowest free index goes to the receiver; no supply and no permission change nothing |
| Tokens.Factory.Transfer | src/Tokens/lib.mo:317-333 | the token changes owner and keeps `createdAt`; without ownership the call traps and changes nothing |
| Ext.Make.Transfer | src/Ext/lib.mo:65-99 | only the owner of an unlisted token moves it; every refusal leaves marketplace and ledger as they were |
| Listings.TransferGrantedExactlyWhen | src/Ext/lib.mo:65-99 | an EXT transfer is granted if and only if the sender owns the token, gives away what is his, and it is not listed |
| Listings.TransferRefusals | src/Ext/lib.mo:65-99 | each refusal, by its text, if and only if its reason holds; a refused transfer changes nothing |
| Shuffle.RandomIndexInRange | src/Tokens/lib.mo:187-189 | the drawn index always lies below the current one, so the assert in the loop holds |
| Shuffle.RandomIndexIsPercent | src/Tokens/lib.mo:187-189 | the index is the current one times the random percentage, by 100, rounded down |
| Shuffle.PrngIsLinear | src/Tokens/lib.mo:153-165 | the generator is 109 b + 57 modulo 256, taken modulo 100, on the unsigned byte |
| Shuffle.ShuffledSwapsDraws | src/Tokens/lib.mo:175-200 | the shuffle is the swaps of each unminted position, from the top down, with the one its percentage names |
| Shuffle.TwoCards | src/Tokens/lib.mo:175-200 | two cards, the upper unminted, change places if and only if the percentage is below 50 |
| Shuffle.ShuffledEnds | src/Tokens/lib.mo:168-200 | for every seed and minted set the shuffle ends without a trap if and only if the metadata has one entry, or at least one and no more than the supply |
| Shuffle.ShuffledPermutes | src/Tokens/lib.mo:168-200 | it then yields a permutation of the metadata |
| Shuffle.ShuffledKeepsMinted | src/Tokens/lib.mo:180-185 | positions from k on keep their metadata when all tokens from k on are minted |
| Shuffle.MintedStaysExactlyWhen | src/Tokens/lib.mo:180-196 | for different cards, a minted token keeps its metadata if and only if no draw of the loop hits its index |
| Shuffle.AllMintedStayExactlyWhen | src/Tokens/lib.mo:180-196 | all minted tokens keep theirs if and only if every draw hits an unminted index |
| Shuffle.ShuffledMovesPositions | src/Tokens/lib.mo:180-196 | cards of any content, equal ones included, move exactly as their positions do |
| Shuffle.MintedMayMove | src/Tokens/lib.mo:190-191 | a concrete ledger and seed for which a minted token loses its metadata |
| Tokens.Factory.ShuffleBegin | src/Tokens/lib.mo:168-175 | up to its await the shuffle writes nothing and traps for the first canister, for anyone but an admin, and once shuffled |
| Tokens.Factory.ShuffleMetadata | src/Tokens/lib.mo:175-200 | after its await the in-place loop computes the shuffle, and a trap leaves the metadata as it was |
| Tokens.Factory.ConfigureMetadata | src/Tokens/lib.mo:252-268 | metadata is set only by an admin, before the shuffle, for the whole supply |
| Tokens.CardsAreSettled | src/Tokens/lib.mo:168-268 | however shuffles and configurations interleave, once shuffled the multiset of metadata never changes |
| Sha224Constants.ConstantsAreCubeRoots | src/NNS/SHA224.mo:10-27 | each K is the first 32 bits of the fraction of the cube root of its prime |
| Sha224Constants.InitialIsSquareRoots | src/NNS/SHA224.mo:29-32 | each initial word is the second 32 bits of the fraction of the square root of the ninth to sixteenth prime |
| Sha224Constants.FirstPrimes | src/NNS/SHA224.mo:10-32 | those are the first sixty-four primes: all prime, in order, and none missing |
| Sha224Constants.ChSelects | src/NNS/SHA224.mo:163-163 | Ch takes the bits of one word or the other as its first word says |
| Sha224Constants.MajVotes | src/NNS/SHA224.mo:166-166 | Maj has the bit that two of its three words have |
| Sha224Constants.SigmasMove | src/NNS/SHA224.mo:146-166 | to which places the sigmas move single bits |
| Sha224Spec.PaddingIsFips | src/NNS/SHA224.mo:95-116 | the padding is 0x80, the least zeros that align, and the 64-bit big-endian bit length, as section 5.1.1 of FIPS 180-4 asks |
| Sha224Spec.FewestZeros | src/NNS/SHA224.mo:100-104 | no smaller number of zero bits aligns the message |
| Sha224Spec.Length64Reads | src/NNS/SHA224.mo:111-116 | the eight length bytes denote the length in bits |
| Sha224.Digest.constructor | src/NNS/SHA224.mo:41-57 | a new digest is that of the empty message |
| Sha224.Digest.Reset | src/NNS/SHA224.mo:51-57 | a reset digest is that of the empty message |
| Sha224.Digest.Write | src/NNS/SHA224.mo:59-93 | after any writes, in pieces of any size, the digest is that of the concatenation: chaining words, leftover, nx and len |
| Sha224.SameMessageSameState | src/NNS/SHA224.mo:59-93 | two digests written the same bytes are in the same state however these were split |
| Sha224.Digest.Block | src/NNS/SHA224.mo:127-187 | the block loop is the compression of section 6.2.2 of FIPS 180-4 folded over all whole blocks |
| Sha224.Digest.Expand | src/NNS/SHA224.mo:131-152 | the schedule loop fills the array with the sixty-four words of the standard's schedule |
| Sha224.Digest.RunRounds | src/NNS/SHA224.mo:153-173 | the round loop gives the working variables after all sixty-four rounds |
| Sha224.Digest.WritePadding | src/NNS/SHA224.mo:95-116 | writing the padding leaves nothing over: the digest is that of the padded message |
| Sha224.Digest.Sum | src/NNS/SHA224.mo:95-125 | the result is the SHA-224 digest of everything written, for messages below 2^61 bytes |
| Sha224.Hash224 | src/NNS/SHA224.mo:35-39 | the one-shot function is SHA-224 |
| Crc32.TableEntry | src/NNS/CRC32.mo:7-51 | every one of the 256 table entries is what eight single-bit steps make of its index |
| Crc32.HighBitsPass | src/NNS/CRC32.mo:60-67 | high bits pass through one bit step unchanged, one place lower |
| Crc32.StepsPass | src/NNS/CRC32.mo:60-67 | so they pass through any number of steps |
| Crc32.TableRefinesBits | src/NNS/CRC32.mo:60-67 | for every register and byte one table step equals eight single-bit steps |
| Crc32.OfBlob | src/NNS/CRC32.mo:60-67 | the table-driven loop computes the bit-at-a-time CRC-32 of RFC 1952 for every byte string |
| Crc32.ResidueIsConstant | src/NNS/CRC32.mo:53-67 | data followed by its checksum, lowest byte first, always has the checksum 0x2144DF1C |
| AssetIndex.LookupIsLatest | src/Assets/lib.mo:150-157 | after any restores, uploads, taggings, deletions and full purges nothing has trapped, every index entry points at the last record of its name, and a name gives the record last put under it or nothing |
| AssetIndex.PutKeeps | src/Assets/lib.mo:23-36 | putting a record keeps the index right and changes the lookup of its own name only |
| AssetIndex.DeleteKeeps | src/Assets/lib.mo:254-280 | deleting keeps the index right and changes the lookup of its own name only |
| AssetIndex.TagAllKeeps | src/Assets/lib.mo:283-307 | tagging keeps the index right, and of several entries for a name the last decides |
| AssetIndex.TaggingSetsTags | src/Assets/lib.mo:283-307 | a tagged record has the given tags and is otherwise what it was |
| AssetIndex.RestoreIsFaithfulExactly | src/Assets/lib.mo:126-139 | restoring a backup into a new canister gives the same lookups if and only if every record's name is indexed |
| AssetIndex.RestoredLookup | src/Assets/lib.mo:126-139 | every indexed name is served as before; an unindexed one is served again if and only if some record carries it |
| AssetIndex.DeleteErasesExactly | src/Assets/lib.mo:254-280 | a deletion empties the record that was served if and only if no earlier record has its name |
| AssetIndex.DeletionBlanks | src/Assets/lib.mo:254-280 | a deletion leaves only the name of the first record carrying it, and no index entry |
| AssetIndex.DeletedComesBackExactly | src/Assets/lib.mo:126-139 | a deleted record is served again from a backup if and only if the deletion did not empty it |
| AssetIndex.SecondUploadIsNotFirst | src/Assets/lib.mo:194-209 | uploading, deleting and uploading a name again leads to such a state |
| AssetIndex.KeptAreLost | src/Assets/lib.mo:231-241 | no record that a purge by tag keeps can be looked up afterwards |
| AssetIndex.PurgeTagKeepsIndexExactly | src/Assets/lib.mo:231-241 | a purge by tag keeps the index right if and only if every indexed name has an untagged record, and then empties it |
| AssetIndex.PurgeTagRemovesExactly | src/Assets/lib.mo:38-46 | a purge by tag removes a record if and only if the tag is one of its tags, and keeps the order |
| Assets.Assets.constructor | src/Assets/lib.mo:126-141 | a new canister restores its assets without a trap |
| Assets.Assets.PutAsset | src/Assets/lib.mo:23-36 | replaces the indexed record or appends and indexes a new one |
| Assets.Assets.Restore | src/Assets/lib.mo:126-131 | puts every record in turn; a trap undoes them all |
| Assets.Assets.Backup | src/Assets/lib.mo:133-139 | the backup is the whole buffer, deleted records included |
| Assets.Assets.GetAssetByName | src/Assets/lib.mo:150-157 | the record the index names, nothing for an unknown name |
| Assets.Assets.Upload | src/Assets/lib.mo:182-190 | appends to the upload buffer for admins only |
| Assets.Assets.UploadFinalize | src/Assets/lib.mo:194-209 | the asset gets all bytes uploaded since the last one, and the upload buffer is emptied |
| Assets.Assets.UploadClear | src/Assets/lib.mo:213-218 | empties the upload buffer for admins only |
| Assets.Assets.Purge | src/Assets/lib.mo:222-250 | only a confirmed purge by an admin changes anything; a full one empties buffer and index |
| Assets.Assets.FilterSelf | src/Assets/lib.mo:231-241 | keeps the untagged records in order and deletes the index entries of the kept ones |
| Assets.Assets.Delete | src/Assets/lib.mo:254-280 | forgets the name and blanks the first record carrying it |
| Assets.Assets.Tag | src/Assets/lib.mo:283-307 | retags the known names in turn; a trap undoes them all |
| Hex.DecodeEncode | src/NNS/Hex.mo:39-90 | decoding the encoding of any bytes gives them back |
| Hex.EncodeDecode | src/NNS/Hex.mo:39-90 | a text that decodes is the encoding of its result |
| Hex.DecodesExactly | src/NNS/Hex.mo:57-101 | decoding succeeds if and only if the length is even and all characters are among 0-9 and A-F |
| Hex.DigitsWrittenOut | src/NNS/Hex.mo:24-27 | the digits are 0 to 9 and A to F with their usual values |
| Hex.ErrorsWrittenOut | src/NNS/Hex.mo:57-101 | an error names the first bad character of the whole pairs, or else says that input is missing |
| Hex.Decode | src/NNS/Hex.mo:57-90 | the loop reports the first bad character of the whole pairs, else a missing last character, else returns the bytes |
| Hex.DecodeW4 | src/NNS/Hex.mo:93-101 | the search finds the value of each of the sixteen digits and refuses everything else by name |
| Stoic.DecodeEncode | src/Integrations/Stoic/lib.mo:14-52 | the prefixed canister and big-endian index decode to exactly that canister and index up to 255 bytes, and trap beyond |
| Stoic.DecodesPrefixed | src/Integrations/Stoic/lib.mo:14-52 | with the prefix written out: a line feed, "tid", canister and index decode to these |
| Stoic.EncodeDecode | src/Integrations/Stoic/lib.mo:14-52 | every prefixed identifier of 8 to 255 bytes is rebuilt from its result |
| Stoic.DecodingIsInjective | src/Integrations/Stoic/lib.mo:14-52 | two such identifiers never decode to the same token |
| Stoic.DecodesExactly | src/Integrations/Stoic/lib.mo:14-52 | decoding traps if and only if the identifier is prefixed and longer than 255 bytes; unprefixed ones come back whole |
| Stoic.DecodeToken | src/Integrations/Stoic/lib.mo:14-52 | the two counting loops compute the decoding, with no other overflow or underflow |
| Stoic.CheckPrefix | src/Integrations/Stoic/lib.mo:23-36 | the Nat8 count leaves at byte four without the prefix and overflows only past 255 prefixed bytes |
| Stoic.SplitToken | src/Integrations/Stoic/lib.mo:37-46 | the second loop separates canister and index bytes |
| Stoic.BytesToNat32 | src/Integrations/Stoic/lib.mo:54-60 | for every array the fold is the sum of the bytes at places that repeat from four to four, and traps exactly when that sum or the shift distance leaves 32 bits; up to four bytes it is their big-endian number |

## Left out

- Stoic.DecodeToken: works on the bytes of the identifier; decoding the text of a principal is not part of this model.
- Entrepot.Factory.constructor: admin restore into a running canister is not modelled, since it overwrites the state the invariants are about.
- Shuffle.RandomIndexInRange: the random index passes through floating point in the source; that is exact below 2^53, and left out.
- Locks.LockedListingStands: admin deletions of the token's listing are excluded from serial runs.
- Token identifiers of other canisters, which `list` and the EXT transfer do not refuse: tokens are plain indices here.
- A ledger transfer that took effect although its reply was lost: a rejected call has moved no money here.
- Transaction memos, ledger memos, log messages and the history record of a sale.
- `cronSettlements`: it calls `settle` for every pending transaction, which a run can do anyway.
- `_usedPaymentAddresses`, which nothing reads any more.
- Queries that only reformat state: `details`, `stats`, `payments`, `readTransactions`, `tokens_ext`, asset searches by tag, colours.
- Canister upgrades in the middle of a run: calls in flight are lost with their failed lists.
- The raw byte form of payloads: a payload is a list of byte strings, and flattening it is not modelled.
- Arrays of 2^64 and more elements, where lengths would wrap.
- `src/Http`, `src/PublicSale`, `src/bazaar`, `src/Admins`, the client and the scripts: rendering, routing and thin wrappers, or easy members only.
- The libraries the canister imports (`mo:base`, `mo:ext`, `mo:encoding/Hex`, `mo:principal`): their collections are modelled as mathematical ones.
