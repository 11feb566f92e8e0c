# Verified model of the custodial bank and its dealer

The system keeps users' bitcoin and fiat balances in one ledger. A bank engine moves money between users, the bank's
liability accounts, a dealer and an insurance fund; the dealer prices swaps from an exchange's order book and hedges
the fiat it owes. This project models that logic in Dafny and proves what it keeps over every run.

| module | models |
|---|---|
| `Decimals`, `Money` | decimals as exact rationals with the roundings the code asks for; money, rates, conversion |
| `Ledger`, `Sums` | accounts, books, entries, and tallies of one currency over the owners in view |
| `Registers` | the ledger structure as nested maps: copy an account out, change the copy, write it back |
| `BankSteps` | each bank message as a step on values: which entries it posts, which accounts it opens, which payments it launches |
| `BankRuns`, `BankTheorems` | what every step keeps, and therefore what holds in every state of every run |
| `BankWitnesses` | inputs on which the bank stops reconciling |
| `BankEffects` | what each message takes from whom and gives to whom, in plain amounts |
| `BankEngine` | the engine class: every handler is proved to be such a step, on success and on each early return |
| `Karma`, `KarmaLedger` | sharing karma between users, and writing the shares into the ledger |
| `Accountant`, `Fees` | reconciliation; fee estimates and fee limits of external payments |
| `OrderBook`, `OrderBookReplica`, `StandingQuotes` | the replica of the order book, the one-pass pricing of nine quantities, and the quotes that stand afterwards |
| `Rates`, `RateRules` | swap rates derived from quotes, why no sequence of swaps gains value, and what a rate is |
| `GuaranteedQuotes` | single-use quotes with a time limit |
| `Hedging` | the hedging controller, and where it settles relative to the users' balances |
| `RateLimiting`, `Dca`, `NostrProfiles` | the request limiter, the scheduler of recurring purchases, the profile cache and its table |

The shape of the bank proof: a handler returns a ghost `Action` (message, books after opening accounts, entries
posted, whether a payment was launched) and ensures `Step(before, action, after)`. `Step` allows a handler to post all
entries of its message or none, so conservation on the early returns is part of what each handler proves. Database
calls are success flags with a separate value for every call, so every early return is covered. The theorems are
about arbitrary sequences of steps, hence about any interleaving of messages and payment results.

Findings where code and its stated intent differ, each with a proof of exactly when it goes right:

- `get_better_rate` picks the smaller value when swapping fiat to BTC although rates are BTC per fiat there, so a quoted
  rate can be replaced by a worse one (`HonouredRateIsKeptIff`, `FiatToBtcLosesTheQuote`).
- Old quotes are never deleted, so a book that has become shallow leaves stale quotes that can cross
  (`QuotesAreOrderedIff`, `StaleQuotesCanCross`); a book deep enough for all nine quantities always leaves ordered
  quotes (`DeepBookQuotesAreOrdered`).
- Between two fiats a larger amount can get a better rate than a smaller one on perfectly ordered quotes
  (`LargerTransitIsNoBetter`, `TransitIsNoBetterIff`, `LargerTransitCanBeBetter`).
- Rounding bids up and asks down crosses the quotes of a book whose best prices lie between the same two ticks
  (`UncrossedIff`, `HalfTicksCross`).
- Negative shares are taken off the dealer's remainder but not off the user, so KKP stops netting to zero
  (`KarmaNetsToZeroIff`, `NegativeTotalUnbalancesKarma`).
- A command-line transfer that touches the insurance fund or overdraws a user breaks reconciliation (`CliReconcilesIff`,
  `CliTransferBreaksReconciliation`).
- The recurring-purchase scheduler reads the clock twice; a second reading that falls into the next period costs that period
  its firing (`EveryPeriodFiresIff`, `StrayReadingSkipsPeriod`). With periods open on the left a reading on the boundary
  is enough (`EveryOpenPeriodFiresIff`, `OpenPeriodsCanBeEmpty`).
- The profile table stores an unsigned time as a signed one; cache and table agree exactly when the cast keeps the
  order (`CacheAgreesWithTableIff`, `SignBitSplitsCacheAndTable`).
- A payment whose summary record fails after the debit is neither handed to the node nor refunded (`Engine.Pay`:
  launched exactly when debited and summarised); the money stays with the bank and the sums are conserved.
- `handle_dealer_deposit` writes both accounts back even when the database insert fails; its effect on the books is
  the same as on success (`Engine.DealerDeposit`).

Conventions: `Decimal` is exact, so the only rounding is what the code writes down. Amounts are in units of their
currency. `UserId` and `AccountId` are integers.

## Model

| member | source | states |
|---|---|---|
| Money.SatsRoundTrip | core_types/src/lib.rs:322-334 | a whole number of sats survives the way into BTC and back |
| Money.ParityIsIdentity | core_types/src/lib.rs:336-348 | exchanging at parity changes no normalised amount |
| Money.ThereAndBack | core_types/src/lib.rs:336-348 | base to quote and back never creates money and loses less than one base unit plus one quote unit at the rate plus the rate's own rounding |
| Money.BackAndThere | core_types/src/lib.rs:412-425 | the same starting from the quote currency |
| Money.InvoiceCredit | bank/src/bank_engine.rs:1560-1567 | a fiat invoice turned into sats and credited at the same rate credits less than one sat's worth too much, and at most one fiat unit too little for rates up to a million |
| Money.MoneyIsCut | core_types/src/lib.rs:287-293 | a value of either sign is cut towards zero to whole units of its currency, dropping less than one unit |
| Money.RateIsCut | core_types/src/lib.rs:387-425 | a rate of either sign is cut towards zero to twelve places |
| Money.Exchange | core_types/src/lib.rs:336-348 | fails exactly for a currency the rate does not mention; otherwise a normalised amount of the other currency |
| Money.ExchangedValue | core_types/src/lib.rs:336-348 | the value is the product with the rate, or with its inverse cut to twelve places, cut to the other currency's units |
| Money.OnlyOneCut | core_types/src/lib.rs:356-364 | cutting a value to whole units gives one result only |
| Ledger.DefaultAccount | bank/src/ledger.rs:29-57 | hands out a copy of some matching account, or opens an empty one with a new id; owners keep at most one account per currency and type |
| Ledger.AdjustAllTally | bank/src/bank_engine.rs:647-758 | posting entries changes any tally by exactly the entries in view, over nested maps |
| Ledger.SplitTally | bank/src/accountant.rs:24-46 | a tally splits over two disjoint views that cover it |
| Registers.MakeTx | bank/src/bank_engine.rs:647-758 | succeeds exactly for a positive amount, equal currencies and a working database; the copies have changed whenever a connection was had |
| Registers.PutUser | bank/src/bank_engine.rs:429-437 | one map insert in the nested user maps is one account replaced in the books |
| Registers.LegPosted | bank/src/bank_engine.rs:647-758 | writing two changed copies back equals posting the two entries of a leg |
| Registers.TwoLegsPosted | bank/src/bank_engine.rs:2898-2998 | four write-backs of a two-leg handler equal posting four entries, because the copies are of different accounts |
| BankEngine.PutOrders | bank/src/bank_engine.rs:2423-2471 | the orders in which handlers write four accounts back all give the same books |
| BankEngine.Engine.constructor | bank/src/ledger.rs:76-87 | a new ledger meets every starting condition of the theorems about runs |
| BankEngine.NewLedgerIsInOrder | bank/src/ledger.rs:76-87 | all tallies of a new ledger are zero, it reconciles, and its balances are whole units |
| BankEngine.Engine.Deposit | bank/src/bank_engine.rs:1163-1334 | a step that moves exactly the sats from the bank's external side to the user and changes no other place, when the invoice is known, the amount positive and the database works; else nothing |
| BankEngine.Engine.FiatDeposit | bank/src/bank_engine.rs:962-1129 | a step of two moves or none: the BTC to the dealer's internal side, its worth in fiat from there to the user |
| BankEngine.Engine.InternalTransfer | bank/src/bank_engine.rs:760-925 | a step that moves the amount from payer to payee and nothing else, never overdraws the payer, and succeeds when every account it may pick covers the amount |
| BankEngine.Engine.Swap | bank/src/bank_engine.rs:2338-2508 | a step that posts both legs of a swap or neither, never overdraws the user and refuses to swap a currency into itself |
| BankEngine.SwapLegs | bank/src/bank_engine.rs:2423-2480 | the two transactions and four write-backs of a covered swap: posted exactly when both amounts are positive and both inserts work |
| BankEngine.Engine.DealerDeposit | bank/src/bank_engine.rs:3097-3186 | a settlement moves the sats from the dealer's external to its internal BTC, other money from the bank; posted exactly when a connection was had, even if the insert then failed |
| BankEngine.Engine.PayDealerInvoice | bank/src/bank_engine.rs:3188-3297 | moves exactly the invoice's millisats from the dealer's internal BTC to the bank or to its external BTC, when the invoice was paid and the database works |
| BankEngine.Engine.Pay | bank/src/bank_engine.rs:2012-2331 | takes from the payer the worth of invoice plus fee estimate, in fiat by the rate's inverse cut to twelve places, through the dealer to the bank, or takes nothing; launches a payment exactly when debited and summarised |
| BankEngine.NewLaunchDescribes | bank/src/bank_engine.rs:2020-2046 | the payment's invoice is the sats asked for and its estimate the probed fee plus one sat, or the fewest sats not below the margin |
| BankEngine.DebitFiat | bank/src/bank_engine.rs:2067-2146 | a fiat payer's two debit legs are posted exactly when both amounts are positive and both inserts work |
| BankEngine.DebitBtc | bank/src/bank_engine.rs:2147-2195 | a BTC payer's debit likewise |
| BankEngine.Engine.PaymentSettled | bank/src/bank_engine.rs:2787-2896 | moves the estimate less the fee from the bank to the dealer's internal BTC; panics exactly on a fee above the estimate, never on one within the limit given to the node |
| BankEngine.Engine.PaymentFailed | bank/src/bank_engine.rs:2898-2998 | the moves of the payment the other way round, in full; never refused for its amount, only for a missing user, the database or the connection |
| BankEngine.RefundFiat | bank/src/bank_engine.rs:2903-2979 | a fiat payer's two refund legs are posted exactly when both inserts work |
| BankEngine.RefundBtc | bank/src/bank_engine.rs:2979-3000 | a BTC payer's refund likewise |
| BankEngine.Engine.KarmaBalance | bank/src/bank_engine.rs:1130-1159 | shares the undistributed karma when the users' totals are available, else changes nothing; panics exactly when there is karma to share and the totals add up to zero |
| BankEngine.Engine.CliTransfer | bank/src/bank_engine.rs:3424-3542 | a step between the two named accounts without a balance check, insurance only against the bank; for references with one meaning, exactly when it succeeds |
| BankEngine.PostCli | bank/src/bank_engine.rs:3505-3541 | its transaction and write-backs |
| BankEngine.Engine.GetBalances | bank/src/bank_engine.rs:2510-2545 | the user then has an internal account in every available currency, and no holding has changed |
| BankEffects.DepositChanges | bank/src/bank_engine.rs:1163-1334 | a posted deposit moves the sats, in BTC, from the bank's external side to the user, and no other place changes in any currency |
| BankEffects.FiatDepositChanges | bank/src/bank_engine.rs:962-1129 | likewise its two moves, the second being the BTC times the rate, cut |
| BankEffects.DealerDepositChanges | bank/src/bank_engine.rs:3097-3186 | likewise which side of the dealer gives and which takes |
| BankEffects.DealerInvoiceChanges | bank/src/bank_engine.rs:3188-3297 | likewise for an invoice the dealer pays |
| BankEffects.TransferChanges | bank/src/bank_engine.rs:760-925 | likewise between two different users |
| BankEffects.SwapChanges | bank/src/bank_engine.rs:2423-2480 | likewise the two moves of a swap, the second being the amount times the rate, cut |
| BankEffects.PayChanges | bank/src/bank_engine.rs:2042-2196 | likewise the moves of a payment |
| BankEffects.FailedChanges | bank/src/bank_engine.rs:2898-3000 | likewise of a refund, for the same charge |
| BankEffects.SettledChanges | bank/src/bank_engine.rs:2833-2872 | likewise of the excess |
| BankEffects.CliChanges | bank/src/bank_engine.rs:3424-3542 | likewise of a command-line transfer |
| BankEffects.QuietChangesNothing | bank/src/bank_engine.rs:927-3095 | a message that posts nothing changes no place |
| BankEffects.DebitIsCharge | bank/src/bank_engine.rs:2042-2046 | the debit is the worth of invoice plus estimate at the inverse rate, cut |
| BankEffects.ExchangeConverts | core_types/src/lib.rs:336-348 | what an exchange yields, along or against the rate |
| BankEffects.KarmaChanges | bank/src/bank_engine.rs:1130-1159 | every user with a total receives the proportional share of the undistributed karma cut to eight places, if positive, and nobody else receives any |
| BankEngine.Engine.NormalizeAccounts | bank/src/bank_engine.rs:295-309 | every balance but the insurance fund's is cut to its scale; books of whole units do not change |
| BankEngine.NormalizeEach | bank/src/bank_engine.rs:296-302 | the loop over one account map normalises every account and no other field |
| BankEngine.NormalizeUsers | bank/src/bank_engine.rs:304-308 | the nested loop over users does so for every user |
| BankRuns.StepKeeps | bank/src/bank_engine.rs:927-3095 | a message leaves every tally that it does not name unchanged, also on early returns |
| BankRuns.KarmaKeeps | bank/src/bank_engine.rs:1130-1159 | a karma report moves no currency but KKP |
| BankRuns.StepSolvent | bank/src/bank_engine.rs:872-878 | no message except a command-line transfer puts a user into debt |
| BankRuns.StepNormal | bank/src/bank_engine.rs:927-3095 | every message keeps balances whole units of their currency |
| BankTheorems.MoneyIsConserved | bank/src/bank_engine.rs:927-3095 | over any run the sum over all owners is unchanged, for BTC and each fiat |
| BankTheorems.FiatIsMirrored | bank/src/bank_engine.rs:2423-2471 | the dealer's fiat stays the exact negative of all users' fiat |
| BankTheorems.DealerAccountMirrorsUsers | bank/src/bank_engine.rs:412-427 | the single account the dealer hedges carries that negative |
| BankTheorems.PaymentsInFlightAreSound | bank/src/bank_engine.rs:2787-2792 | in every reachable state every outstanding payment has positive amounts and an existing payer |
| BankTheorems.RefundUndoesPayment | bank/src/bank_engine.rs:2898-2998 | debit and refund of one payment cancel for every owner and currency |
| BankTheorems.RunTally | bank/src/bank_engine.rs:927-3095 | what any view holds after a run is what it held plus all entries posted |
| BankTheorems.FailedPaymentHasNoNetEffect | bank/src/bank_engine.rs:2042-2171 | whatever is processed in between, holdings end as if the refunded payment had never been posted |
| BankTheorems.EachPaymentHasOneResult | bank/src/bank_engine.rs:2787-3032 | the payments in flight are those launched less those settled or failed, so none is both settled and refunded, or refunded twice |
| BankTheorems.MoneyStaysReconciled | bank/src/bank_engine.rs:2409-2421 | without command-line transfers nobody is ever in debt and BTC and fiat always net to zero, whatever karma is reported |
| BankTheorems.NeverShutsDown | bank/src/lib.rs:291-298 | with karma that never falls, a run that starts reconciled stays reconciled, so the shutdown panic is unreachable |
| BankTheorems.CliReconcilesIff | bank/src/bank_engine.rs:3424-3542 | a posted command-line transfer keeps the ledger reconciled if and only if it avoids insurance and is covered |
| BankWitnesses.CliTransferBreaksReconciliation | bank/src/bank_engine.rs:3424-3542 | one that overdraws a user and one out of the insurance fund, both posted, after which the ledger does not reconcile |
| BankTheorems.KarmaRebalances | bank/src/bank_engine.rs:1130-1159 | for totals that are not negative, a report that does not fall leaves KKP netting to zero with a non-negative dealer remainder |
| BankTheorems.KarmaNetsToZeroIff | bank/src/bank_engine.rs:3666-3695 | KKP nets to zero after a report if and only if no share is negative, or nothing was distributed and the report repeats the last |
| BankWitnesses.NegativeTotalUnbalancesKarma | bank/src/bank_engine.rs:3666-3683 | a new engine that shares one unit between totals of 3 and -1 no longer reconciles |
| BankTheorems.NormalizingChangesNothing | bank/src/bank_engine.rs:295-309 | normalising any reachable ledger is the identity |
| BankTheorems.NormalizingCuts | core_types/src/lib.rs:205-207 | normalising cuts each balance towards zero to its currency's units and changes nothing else |
| Accountant.Reconcile | bank/src/accountant.rs:15-58 | Ok if and only if no user account is negative and every currency nets to zero over users, bank and dealer |
| Accountant.AddUsers | bank/src/accountant.rs:24-32 | the per-currency tally equals the users' holdings, and an error is noted exactly for a negative account |
| Accountant.AddAccounts | bank/src/accountant.rs:38-46 | one owner's accounts are added to the tally by currency |
| Accountant.Exposure | bank/src/bank_engine.rs:412-421 | the exposure of a currency is what all users hold of it |
| Accountant.TallyByGroup | bank/src/accountant.rs:24-46 | the reconciled tally, which leaves the insurance fund out, is the users' plus the dealer's plus the bank's |
| Karma.Apportionment | bank/src/bank_engine.rs:3666-3683 | for non-negative totals of positive sum the dealer's remainder is at least zero and below one unit per user, and all shares are credited |
| Karma.SharesCredited | bank/src/bank_engine.rs:3669-3682 | what is credited equals what is taken off if and only if no share is negative |
| KarmaLedger.SumTotals | bank/src/bank_engine.rs:3667 | adds up the users' totals |
| KarmaLedger.DistributeKarma | bank/src/bank_engine.rs:3666-3683 | each user's KKP grows by that user's positive share, and the running remainder is the amount minus all shares, exactly |
| KarmaLedger.ShareOne | bank/src/bank_engine.rs:3669-3682 | one turn of that loop |
| KarmaLedger.ReportKarma | bank/src/bank_engine.rs:1130-1159 | external KKP becomes minus the report, users get their shares, the dealer the rest, nothing else moves; when it panics |
| Fees.EstimateIsWholeSats | bank/src/bank_engine.rs:2020-2039 | both fee estimates are whole sats |
| Fees.EstimateIs | bank/src/bank_engine.rs:2020-2039 | the probed fee plus one sat, or the fewest whole sats not below the margin's share |
| Fees.MaxFee | lnd_connector/src/connector.rs:164-175 | none exactly when no limit is given; the nearest whole sats of the limit in sats if that fits 64 bits; else the nearest of the share, or zero |
| Fees.RoundsToNearest | lnd_connector/src/connector.rs:167-175 | rounding gives the one nearest integer, with ties to the even one |
| Fees.LimitIsEstimate | lnd_connector/src/connector.rs:167-175 | the estimate survives every rounding step on its way to the node |
| Fees.ExcessIsNotNegative | bank/src/bank_engine.rs:2833-2844 | if the node keeps to its limit the excess assertion holds and debit = amount + fee + excess |
| OrderBook.MatchUpTo | dealer/src/dealer_engine.rs:859-906 | the running walk has taken the quantity exactly when the depth allows, at the cost of walking from scratch |
| OrderBook.CostInLevel | dealer/src/dealer_engine.rs:861-881 | within a level the cost from scratch grows by that level's price per unit |
| OrderBook.Desk.UpdateQuotes | dealer/src/dealer_engine.rs:831-920 | one pass fills exactly the quantities not above the depth, each with its own from-scratch price, and deletes none |
| OrderBook.NineQuantities | dealer/src/dealer_engine.rs:832 | a deep book is quoted for these nine quantities |
| OrderBook.AverageFalls | dealer/src/dealer_engine.rs:859-919 | on prices that do not rise, the average cost per unit does not rise with the quantity |
| OrderBook.BidQuotesFall | dealer/src/dealer_engine.rs:908-913 | bid quotes never rise with the quantity |
| OrderBook.AskQuotesRise | dealer/src/dealer_engine.rs:914-919 | ask quotes never fall with the quantity |
| OrderBook.UncrossedIff | dealer/src/dealer_engine.rs:908-919 | all quotes are uncrossed if and only if the best bid rounded up is at most the best ask rounded down |
| OrderBook.QuotesUncrossed | dealer/src/dealer_engine.rs:908-919 | in particular on an uncrossed book in whole ticks every bid quote is at most every ask quote |
| OrderBook.HalfTicksCross | dealer/src/dealer_engine.rs:909-916 | with prices between ticks rounding can cross the quotes |
| OrderBookReplica.Merge | dealer/src/dealer_engine.rs:800-811 | the loop over a delta equals one merge: new volumes set, zero volumes removed, the rest kept |
| OrderBookReplica.Feed.Process | dealer/src/dealer_engine.rs:791-829 | replica and quotes after an update; quotes come from the new book in price order, and an unknown update panics |
| OrderBookReplica.InOrder | dealer/src/dealer_engine.rs:851-857 | walking the sorted map from its least key yields its levels in ascending price order |
| OrderBookReplica.AscendingIsSorted | dealer/src/dealer_engine.rs:857 | that order is sorted and holds exactly the map's levels |
| OrderBookReplica.DescendingIsSorted | dealer/src/dealer_engine.rs:851 | the reversed order is sorted and holds exactly the map's levels |
| OrderBookReplica.DeltaCatchesUpIff | dealer/src/dealer_engine.rs:797-825 | merging the difference of two books gives the newer one if and only if no level was set to an explicit zero |
| OrderBookReplica.ReplicaFollowsExchange | dealer/src/dealer_engine.rs:791-829 | after a snapshot and any number of deltas the replica equals the exchange's book |
| OrderBookReplica.NoReplicaBeforeSnapshot | dealer/src/dealer_engine.rs:798-800 | deltas before the first snapshot are dropped |
| OrderBookReplica.QuotesOfBook | dealer/src/dealer_engine.rs:831-920 | bid quotes fall, ask quotes rise and none cross, for every uncrossed book in whole ticks |
| OrderBookReplica.QuoteInTicks | dealer/src/dealer_engine.rs:908-919 | a bid quote is the first whole tick not below the average price, an ask quote the last not above it, at the symbol's decimal places |
| OrderBookReplica.PowersOfTen | dealer/src/dealer_engine.rs:910-916 | the scale is a power of ten |
| StandingQuotes.QuotesAreOrderedIff | dealer/src/dealer_engine.rs:831-920 | after an update from any book the standing quotes are ordered if and only if the fresh quotes for the smallest quantity do not cross and no quote left over crosses another or the best fresh one |
| StandingQuotes.UncrossedQuotesAreOrderedIff | dealer/src/dealer_engine.rs:831-920 | on an uncrossed book in whole ticks only the left-over quotes decide |
| StandingQuotes.StaleQuotesCanCross | dealer/src/dealer_engine.rs:908-919 | two updates from empty quotes, both from uncrossed books in whole ticks, after which a bid quote is above an ask quote |
| RateRules.GetRateIs | dealer/src/dealer_engine.rs:943-1064 | a rate exists and has a value exactly when it is the quote of the least bucket covering the whole fiat value, with the spread charged once, cut to twelve places, also on the way through BTC |
| RateRules.PurchaseExistsIff | dealer/src/dealer_engine.rs:1033-1036 | fiat has a BTC rate if and only if some ask bucket covers its whole amount |
| RateRules.SaleExistsIff | dealer/src/dealer_engine.rs:1021-1036 | BTC has a fiat rate if and only if some bid bucket covers its value at the first quote |
| RateRules.SwapPaysTheRate | bank/src/bank_engine.rs:2442 | a swap pays the amount times that rate, cut to the target's units |
| RateRules.SaleFetches | dealer/src/dealer_engine.rs:1038-1045 | selling BTC fetches at most the bucket's bid less half the spread, and less than the two roundings below it |
| RateRules.PurchaseFetches | dealer/src/dealer_engine.rs:1046-1056 | buying BTC likewise against the bucket's ask |
| RateRules.LargerSaleIsNoBetter | dealer/src/dealer_engine.rs:1033-1045 | on falling bid quotes a larger sale never gets a better rate |
| RateRules.LargerPurchaseIsNoBetter | dealer/src/dealer_engine.rs:1033-1056 | on rising ask quotes a larger purchase never does |
| RateRules.LargerTransitIsNoBetter | dealer/src/dealer_engine.rs:967-990 | nor a larger swap between fiats, unless it yields less BTC on the way |
| RateRules.TransitIsNoBetterIff | dealer/src/dealer_engine.rs:976-981 | exactly when, in terms of the rates of the two legs |
| RateRules.LargerTransitCanBeBetter | dealer/src/dealer_engine.rs:967-990 | ordered quotes on which 1100 dollars get a better rate than 1000 |
| Rates.RatesAreFair | dealer/src/dealer_engine.rs:963-1064 | every rate the dealer gives, direct or through BTC, gains nobody value at prices between bids and asks |
| Rates.SwapLosesValue | bank/src/bank_engine.rs:2338-2508 | a swap at such a rate never raises the holder's total value |
| Rates.NoSequenceGains | dealer/src/dealer_engine.rs:2078-2165 | no sequence of swaps of any length gains value, even while quotes change around the prices |
| Rates.ClosedCycleLoses | dealer/src/dealer_engine.rs:2078-2165 | a cycle back to one currency ends with no more of it |
| Rates.BracketingPrices | dealer/src/dealer_engine.rs:943-1064 | quotes whose highest bid is at most the lowest ask always admit a price vector between them |
| Rates.StandingQuotesAreArbitrageFree | dealer/src/dealer_engine.rs:943-1064 | on such quotes alone every closed cycle ends with no more than it started |
| StandingQuotes.DeepBookQuotesAreOrdered | dealer/src/dealer_engine.rs:831-920 | a deep uncrossed book in whole positive ticks leaves positive, ordered quotes, whatever quotes were there before |
| Rates.DeepBooksAreArbitrageFree | dealer/src/dealer_engine.rs:831-1064 | quotes taken from such books for all fiat currencies admit no closed cycle of swaps with a gain |
| GuaranteedQuotes.Dealer.Process | dealer/src/dealer_engine.rs:414-513 | offers and reply of the swap and quote arms |
| GuaranteedQuotes.HonouredAsIssued | dealer/src/dealer_engine.rs:414-513 | an honoured quote was issued before to the same user for the same currencies and amount, not more than five seconds ago |
| GuaranteedQuotes.GoneForGood | dealer/src/dealer_engine.rs:455-473 | a used quote is in no later state |
| GuaranteedQuotes.HonouredOnce | dealer/src/dealer_engine.rs:455-473 | each quote is honoured at most once over any run |
| GuaranteedQuotes.QuotedRateIsKeptIff | dealer/src/dealer_engine.rs:1190-1209 | the better rate is at least the quoted one if and only if the swap is not from fiat to BTC, or there is no current rate, or it is no worse |
| GuaranteedQuotes.HonouredRateIsKeptIff | dealer/src/dealer_engine.rs:455-473 | the same over whole runs, for every honoured quote and either direction |
| GuaranteedQuotes.HonouredRateIsChosen | dealer/src/dealer_engine.rs:1190-1209 | over runs the rate is the quoted or the current one: the larger from BTC and between fiats, the smaller from fiat to BTC |
| GuaranteedQuotes.QuoteStaysOnOffer | dealer/src/dealer_engine.rs:436-441 | a quote nobody presents stays on offer for the whole time limit |
| GuaranteedQuotes.FittingQuoteIsHonoured | dealer/src/dealer_engine.rs:455-473 | a quote presented in time by its user for the same currencies and amount is honoured |
| GuaranteedQuotes.PresentedQuoteIsUsedUp | dealer/src/dealer_engine.rs:455-473 | a presented quote is gone, honoured or not, and if not the answer is an invalid id |
| GuaranteedQuotes.PlainSwapGetsTheCurrentRate | dealer/src/dealer_engine.rs:446-454 | a swap without a quote gets the current rate or no currency |
| GuaranteedQuotes.Refusals | dealer/src/dealer_engine.rs:427-433 | a swap into itself and a quote without a rate change no offer; losing the exchange drops all |
| GuaranteedQuotes.HonouredRateIsNoWorse | dealer/src/dealer_engine.rs:455-473 | over whole runs a BTC-to-fiat or fiat-to-fiat swap gets no less than it was quoted |
| GuaranteedQuotes.FiatToBtcLosesTheQuote | dealer/src/dealer_engine.rs:1199-1203 | a run of a quote and its swap in which the quoted rate is replaced by a worse one |
| Hedging.ContractsRoundUp | dealer/src/dealer_engine.rs:179-198 | the two rounding modes together round up |
| Hedging.OrderClosesGap | dealer/src/dealer_engine.rs:350-397 | an order never overshoots, respects the cap and closes at least one contract |
| Hedging.OrderIsTheGap | dealer/src/dealer_engine.rs:367-397 | one filled order leaves less than a contract of the gap, or was exactly the cap |
| Hedging.DueIff | dealer/src/dealer_engine.rs:347-365 | an order is due exactly when the holding is the tolerance or more from the rounded-up balance |
| Hedging.RepresentableIff | dealer/src/dealer_engine.rs:367-377 | the check panics on a gap that is not a signed 64-bit number once cut |
| Hedging.TradeIsOrder | dealer/src/dealer_engine.rs:367-407 | the trade a check returns, described by holding, target and cap alone, is the controller's order |
| Hedging.Controller.CheckRisk | dealer/src/dealer_engine.rs:285-408 | exactly the accounts out of tolerance get an order of the right side and size, whatever the iteration order; when it panics |
| Hedging.Review | dealer/src/dealer_engine.rs:295-394 | one account's turn: skipped, within tolerance, ordered or stuck, exactly by its position, tolerance and size |
| Hedging.Size | dealer/src/dealer_engine.rs:367-397 | bought when the holding is short of the target, sold when over; all but a fraction of a contract of the difference, or exactly the cap |
| Hedging.NeverOvershoots | dealer/src/dealer_engine.rs:350-397 | over repeated checks the gap keeps its sign, never grows and stays within 64 bits |
| Hedging.HedgeConverges | dealer/src/dealer_engine.rs:285-408 | after at most as many filled orders as the gap has contracts no order follows and the position is within tolerance + 1 |
| Hedging.HedgeConvergesAtTheCap | dealer/src/dealer_engine.rs:285-408 | the number of checks needed is the gap divided by the cap, and one without a cap |
| Hedging.ZeroCapNeverHedges | dealer/src/dealer_engine.rs:379-407 | with an order cap of zero the position never moves |
| Hedging.UsersAreHedged | dealer/src/dealer_engine.rs:285-408 | in every reachable bank state hedging ends within tolerance + 1 of minus what all users hold |
| RateLimiting.RateLimiter.Check | bank/src/bank_engine.rs:176-212 | the verdict depends on the user's own entry, and no other entry changes |
| RateLimiting.SpanAdmitsTwiceTheLimit | bank/src/bank_engine.rs:176-193 | any half-open span as long as the interval lets through at most 2 * limit + 1 requests of a user |
| RateLimiting.FirstWindowIsExact | bank/src/bank_engine.rs:176-193 | in a user's first window exactly the first `limit` requests pass |
| RateLimiting.NextWindowIsExact | bank/src/bank_engine.rs:176-193 | a request an interval later passes and opens a window in which exactly `limit` further ones pass |
| RateLimiting.BoundIsAttained | bank/src/bank_engine.rs:195-212 | for every limit some history reaches that bound |
| Dca.NextStamp | bank/src/dca.rs:13-16 | the first multiple of the period after the clock |
| Dca.Durations | bank/src/dca.rs:20 | the intervals are a day, a week and four weeks |
| Dca.Scheduler.Turn | bank/src/dca.rs:30-43 | one turn fires exactly the intervals whose stamp has passed and advances only those |
| Dca.FiringsAreInDifferentPeriods | bank/src/dca.rs:30-43 | two firings of one interval fall in different aligned periods on any monotone clock |
| Dca.EveryPeriodFiresIff | bank/src/dca.rs:30-43 | with polls closer than the period, a period after the first boundary fires exactly once if and only if no earlier firing's second reading fell into it |
| Dca.StrayReadingSkipsPeriod | bank/src/dca.rs:33-34 | an input where it does |
| Dca.EveryOpenPeriodFiresIff | bank/src/dca.rs:30-43 | with periods open on the left, a period fires exactly once if and only if no firing's two readings lie on both sides of its start or on it |
| Dca.OpenPeriodsCanBeEmpty | bank/src/dca.rs:33-34 | an input without a stray reading where such a period stays empty |
| NostrProfiles.Engine.StoreProfile | nostr_engine/src/nostr_engine.rs:121-153 | cache and table after an update, with the database reachable or not |
| NostrProfiles.CacheIsLatest | nostr_engine/src/nostr_engine.rs:122-140 | the cache holds the time and verdict of each key's latest update |
| NostrProfiles.TableIsLatestSigned | models/src/nostr_profiles.rs:89-104 | the table does so by signed time, with a missing verdict read as false |
| NostrProfiles.CacheHoldsAnUpdate | nostr_engine/src/nostr_engine.rs:122-140 | the cached update is one as it came, cached on arrival, that no later update outdates |
| NostrProfiles.TableHoldsAnUpdate | models/src/nostr_profiles.rs:89-104 | the row has all columns of one update that no later one outdates |
| NostrProfiles.CacheAgreesWithTableIff | nostr_engine/src/nostr_engine.rs:307-321 | after any updates they agree on keys, time and verdict if and only if a key's times are all below or all above the sign bit |
| NostrProfiles.SignBitSplitsCacheAndTable | nostr_engine/src/nostr_engine.rs:307-321 | two updates of one key in whole seconds after which the cache keeps the later and the table the earlier |
| NostrProfiles.TimelyUpdatesAgree | models/src/nostr_profiles.rs:89-104 | below the sign bit they always agree, on the greatest time seen |
| NostrProfiles.WholeRowsAgreeIff | models/src/nostr_profiles.rs:101-104 | whole rows stay equal over an update unless it is as old and turns a missing verdict into false or back |

## Left out

- Engine.CliTransfer: says exactly when it succeeds for references with one meaning; if the bank has several external BTC accounts, which one is meant depends on the iteration order of a hash map.
- Engine.Swap: a rate that does not connect the two currencies (the code panics), KKP, and an amount in a third currency are excluded; the services that build these messages never produce them.
- Engine.FiatDeposit: the same holds for its rate and amount.
- Ledger.ValidBooks: the dealer has at most one account of a currency and type, as the default lookup creates them; users and the bank may have several.
- Hedging.UsersAreHedged: orders are filled completely and the exposure stays put while the controller works.
- Rates.GetRate: the reply's fee amount and the bucket choice of `get_rate_inv` are not modelled.
- OrderBookReplica.Feed.Process: one symbol at a time; the source keeps the same state per symbol in maps.
- `Decimal` overflow and its rounding to 28 digits: values are exact rationals with the explicit roundings only.
- Accounts are compared per owner and currency: the refund may credit another account of the payer in the same currency than the one debited.
- Transaction sequence numbers, journal records, summary transactions and account classes: reporting, kept only as flags that abort a step where the code returns.
- Amounts missing from a message where the code unwraps them, and texts that fail to parse.
- Invoice requests and route queries: they open accounts as `GetBalances` does and move nothing.
- Sweeping excess funds, leverage maintenance and profit accounting of the dealer.
- LNURL, key-send payments, zap notes, notifications and the clean-up of pending profile requests.
- The API's routes, tokens and request middleware; the message queues; LND, websocket, database and metrics code.
- Crash recovery: runs start from a new ledger or from any ledger in order.
- The setters `Money::set`, `mult` and `div`: each only normalises, as `NewMoney` does.
- Integer overflow of clocks and counters (64-bit milliseconds, request counters).
