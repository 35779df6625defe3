# NFID Wallet: models and proofs of the wallet's protocols

This project models, in Dafny, the parts of NFID Wallet in which state, order or arithmetic decide whether a user
is shown and charged the right thing, and proves what those parts are meant to guarantee. `dafny verify dfyconfig.toml`
checks everything. Each module follows one component of the wallet:

- `RequestFifo` is the specification of a server that answers requests one at a time in arrival order.
  `IdentityKitMachine` and `EmbedMachine` are the two machines that serve requests of applications; each is shown to
  refine it, and the approvals and authentications they rely on are traced back through arbitrary runs. One event is
  one macrostep: the transition taken in each parallel region with its actions, then eventless transitions until none
  is enabled. Services that a machine invokes deliver any outcome at any time.
- `Retry`, `EvmChain` and `AaveService` are the approve-then-call protocol on EVM chains: a chain with nonces, a pool
  and allowances, a node that answers late, wrongly or not at all, and the wallet object that signs and broadcasts.
  `SupplyFee` and `Units` are the amounts of a maximal supply and their printing; `BitcoinFee` is the search for a fee.
- `BalanceQueueKey` and `BalanceCache` are the ERC-20 balance cache, with requests that share fetches, entries that
  expire and refreshes in the background, interleaved at every await. `EvmAllowances` is the scan of approval logs.
- `SortTokens` and `SortTwice` (over `InsertionSort`, which stands for the library's stable sort), `Paging`,
  `RevokeAll`, `Tokens` and `TokensCache`, `TokenBalances` and `Positions` are the algorithms on token lists,
  approvals and positions; tokens are objects that are written in place.
- `TokenIdentifier` is the binary codec of token identifiers, with the signed 32-bit shifts of the source.

Some promises fail for some inputs. The code is modelled as it is; there is then a lemma with such inputs, and a lemma
that says exactly when the promise is kept: a promoted embed message may be impossible to cancel
(`CancelStopsTheMachineIff`) and its reply may miss its sender (`ReplyReachesSenderIff`), the end of a session can
stop the embed machine (`SessionExpiryStopsTheMachineIff`), a contract missing from an unexpired cache entry is
answered "0" (`RecheckIsRightIff`), sorting twice can differ from sorting once (`SortingTwiceIsSortingOnceIff`),
identifiers shorter than eight bytes do not survive decoding (`EncodeOfDecode`). A comment in
`_getMultipleTokenBalancesInternal` says that all requested contracts are fetched when some are missing; the inner
check of the cache answers them without a fetch when the entry has not expired, and the model follows the code.

## Model

| member | source | states |
|---|---|---|
| `RequestFifo.NextPreservesInv` | apps/nfid-frontend/src/features/identitykit/machine.ts:165-188 | every step of the server keeps received = finished, then active, then queue; idle means an empty queue; the active request changes only when it is finished |
| `RequestFifo.InvMeansInOrder` | apps/nfid-frontend/src/features/identitykit/machine.ts:165-188 | finished requests are a prefix of the received ones, and the active one is the next |
| `IdentityKitMachine.RunsStayGood` | apps/nfid-frontend/src/features/identitykit/machine.ts:151-356 | on every run, the context, the data at the prompt and the invoked service belong to the active request |
| `IdentityKitMachine.ReadyIffIdle` | apps/nfid-frontend/src/features/identitykit/machine.ts:181-188 | after every macrostep Main is in Ready exactly when no request is active |
| `IdentityKitMachine.StepRefinesFifo` | apps/nfid-frontend/src/features/identitykit/machine.ts:107-137 | every macrostep is one step of the FIFO server, or none |
| `IdentityKitMachine.RunsRefineFifo` | apps/nfid-frontend/src/features/identitykit/machine.ts:165-188 | on every run, received = answered, then active, then queue, and nothing waits while nothing is active |
| `IdentityKitMachine.AnsweredOnceInArrivalOrder` | apps/nfid-frontend/src/features/identitykit/machine.ts:330-352 | each request is finished once, in arrival order: its response is sent, given up when sending fails, or withheld when a service asks for that; the active one does not change before |
| `IdentityKitMachine.PromptWasPrepared` | apps/nfid-frontend/src/features/identitykit/machine.ts:259-282 | a prompt shows data prepared for the active request since it became active, with nothing but queueing since |
| `IdentityKitMachine.ApprovalIsForThisPrompt` | apps/nfid-frontend/src/features/identitykit/machine.ts:276-304 | execution is entered only by an approval given at a prompt prepared for that request, also after TRY_AGAIN and ON_BACK |
| `IdentityKitMachine.EnteredExactly` | apps/nfid-frontend/src/features/identitykit/machine.ts:178-353 | a state of Main is entered exactly by the events that lead there: authentication by validated metadata that require it, ON_BACK or TRY_AGAIN, the rejection by ON_CANCEL at the prompt or the error page, execution by ON_APPROVE, the error page, with its message, by a failure; only a failed login stops the machine |
| `IdentityKitMachine.DecisionIsAnswered` | apps/nfid-frontend/src/features/identitykit/machine.ts:276-304 | ON_APPROVE at a prompt executes, ON_CANCEL prepares a rejection, and what that resolves with is the one response, to the active request |
| `IdentityKitMachine.HandledOnlyAfterAuthentication` | apps/nfid-frontend/src/features/identitykit/machine.ts:190-257 | a request that requires authentication is handled only after an authentication check that succeeded since it became active, with no step back or retry in between |
| `IdentityKitMachine.SilentIffValidatedSo` | apps/nfid-frontend/src/features/identitykit/machine.ts:78-92 | a request is executed without a prompt exactly when its validation said it is silent, provided authentication checks return no metadata of their own |
| `IdentityKitMachine.MetadataWasValidated` | apps/nfid-frontend/src/features/identitykit/machine.ts:190-210 | the metadata decisions rest on are what validation said of the active request since it became active, never another's |
| `IdentityKitMachine.ActiveRequestCanBeAnswered` | apps/nfid-frontend/src/features/identitykit/machine.ts:178-353 | from every reachable running state some events lead to the answer of the active request |
| `IdentityKitMachine.FailuresArePostedWithoutPayload` | apps/nfid-frontend/src/features/identitykit/machine.ts:64-74 | a response goes out without a payload exactly when it is sent because a service failed, and is withheld exactly when a service resolved with a NoActionError |
| `IdentityKitMachine.OneStretchOneRequest` | apps/nfid-frontend/src/features/identitykit/machine.ts:121-137 | between two answers the active request stays the same |
| `IdentityKitMachine.ErrorPageData` | apps/nfid-frontend/src/features/identitykit/machine.ts:259-315 | the error page shows data of the active request exactly if a preparation for it has succeeded, and otherwise what was there before |
| `IdentityKitMachine.ErrorPageCanShowAnotherRequest` | apps/nfid-frontend/src/features/identitykit/coordinator.tsx:99-106 | a run in which the error page of one request shows the data of another |
| `EmbedMachine.StepRefinesFifo` | apps/nfid-frontend/src/features/embed/machine.ts:150-190 | every macrostep is one step of the FIFO server, or none, messages compared without their origin |
| `EmbedMachine.RunsRefineFifo` | apps/nfid-frontend/src/features/embed/machine.ts:219-233 | on every run, received = replied to, then active, then queue |
| `EmbedMachine.RepliedOnceInArrivalOrder` | apps/nfid-frontend/src/features/embed/machine.ts:298-353 | each message gets at most one reply, in arrival order, and the active one does not change before; where a reply goes is `ReplyReachesSenderIff` |
| `EmbedMachine.RepliesAreAddressed` | apps/nfid-frontend/src/features/embed/effects.ts:34-61 | the k-th reply is to the k-th arrival, posted to its sender's origin if it found the machine idle, else to the origin in its own data or none |
| `EmbedMachine.ReplyReachesSenderIff` | apps/nfid-frontend/src/features/embed/effects.ts:34-42 | a reply is posted to the embedding page; when that page sent the message, it arrives exactly when the page's origin can be posted to and the message found the machine idle, or the message, having waited, itself carried that origin (in normal form) or "*" |
| `EmbedMachine.StepOnExecution` | apps/nfid-frontend/src/features/embed/machine.ts:293-343 | the procedure service is started by an approval or for a delegation renewal, for the message active then |
| `EmbedMachine.ExecutionWasApproved` | apps/nfid-frontend/src/features/embed/machine.ts:312-353 | a message other than a delegation renewal executes only on an approval given while it waited for one, never on an earlier one |
| `EmbedMachine.EnteredExactly` | apps/nfid-frontend/src/features/embed/machine.ts:206-357 | exactly which events stop the machine, enter each authentication state, and put the handler in each of its states; a failed procedure shows its reason |
| `EmbedMachine.ApprovalExecutes` | apps/nfid-frontend/src/features/embed/machine.ts:312-316 | each of the three approval events (APPROVE, APPROVE_IC_GET_DELEGATION, APPROVE_IC_REQUEST_TRANSFER) executes the message that waits for approval, with the session held and the event given; nothing else starts a message other than a renewal |
| `EmbedMachine.SessionIsLastSession` | apps/nfid-frontend/src/features/embed/machine.ts:177-179 | the session held is the one the latest completed authentication delivered |
| `EmbedMachine.HandledWithSession` | apps/nfid-frontend/src/features/embed/machine.ts:120-132 | outside READY a message other than a renewal lacks a session exactly when the latest authentication delivered none |
| `EmbedMachine.SessionCanBeLost` | apps/nfid-frontend/src/features/embed/machine.ts:260-289 | a login without a session leaves a waiting message without one |
| `EmbedMachine.ActiveMessageProvenance` | apps/nfid-frontend/src/features/embed/machine.ts:150-190 | a message taken while idle has its sender's origin and its parameters in the authentication request; a promoted one has neither |
| `EmbedMachine.CancelStopsTheMachineIff` | apps/nfid-frontend/src/features/embed/effects.ts:44-61 | cancelling replies, or stops the machine for good exactly when the id is missing or the origin the message arrived with is missing or rejected by the browser |
| `EmbedMachine.QueuedMessageCannotBeCancelled` | apps/nfid-frontend/src/features/embed/machine.ts:180-190 | any message without a usable origin of its own that waited behind another cannot be cancelled |
| `EmbedMachine.SessionExpiryStopsTheMachineIff` | apps/nfid-frontend/src/features/embed/machine.ts:283-288 | the end of the session stops the machine exactly when there is no active message that arrived with an origin the browser posts to |
| `EmbedMachine.StoppedForGood` | apps/nfid-frontend/src/features/embed/machine.ts:206-357 | a stopped machine keeps its state and replies to nothing |
| `EmbedMachine.ActiveMessageCanBeAnswered` | apps/nfid-frontend/src/features/embed/machine.ts:293-355 | from every reachable running state some events lead to the reply to the active message, unless its origin is rejected; the procedure service succeeds among them only when started with a session |
| `EmbedMachine.RejectedOriginBlocks` | apps/nfid-frontend/src/features/embed/machine.ts:337-340 | once a message with a rejected origin is active, no events whatever lead to a reply to it or to any later one |
| `Retry.WithRetry` | apps/nfid-frontend/src/integration/ethereum/utils.ts:1-20 | at most `retries` calls; the first success or first other failure is the outcome; it sleeps delayMs * (2^k - 1) in all; the last throw is not reached |
| `Retry.RateLimitIff` | apps/nfid-frontend/src/integration/ethereum/utils.ts:10-14 | what is retried is an Error whose message has "429", "Too Many Requests" or "-32005" in it, and nothing else |
| `Retry.RetriedIsDetermined` | apps/nfid-frontend/src/integration/ethereum/utils.ts:6-18 | the outcome is determined by the replies, and more retries change it only after a rate limit |
| `EvmChain.MinedAtMostOnce` | apps/nfid-frontend/src/integration/aave/aave.service.ts:790-793 | a signed transaction broadcast any number of times is mined at most once, in nonce order |
| `EvmChain.MineAllOnlyBroadcasts` | apps/nfid-frontend/src/integration/aave/aave.service.ts:790-793 | while only one transaction is pooled, the chain either mines just that one or nothing |
| `EvmChain.MinedInNumbers` | apps/nfid-frontend/src/integration/aave/aave.service.ts:790-793 | mining takes the next transaction out of the pool; it succeeds exactly when it does not revert and its allowance suffices, an approval sets the allowance and a call uses up what it pulls |
| `AaveService.Wallet.Broadcast` | apps/nfid-frontend/src/integration/aave/aave.service.ts:625-627 | the retried broadcast ends as withRetry does, and adds at most this transaction to the chain |
| `AaveService.Wallet.SignAndSend` | apps/nfid-frontend/src/integration/aave/aave.service.ts:621-629 | signs one transaction of the nonce and call given and sends it; it succeeds exactly when the last broadcast attempt returned, the transaction was then mined without reverting, and its receipt was read |
| `AaveService.Wallet.EnsureAllowance` | apps/nfid-frontend/src/integration/aave/aave.service.ts:747-799 | approves exactly the amount, and only when the allowance read is too small; then the allowance is the amount and the nonce returned is the account's next; it fails exactly when an estimate or the sending of the approval fails |
| `AaveService.Wallet.CallContract` | apps/nfid-frontend/src/integration/aave/aave.service.ts:601-628 | the call goes out with the approval's successor nonce, and finds a sufficient allowance |
| `AaveService.Wallet.SupplyErc20` | apps/nfid-frontend/src/integration/aave/aave.service.ts:580-630 | it succeeds exactly when all it signs goes through, and signs then the approval, if needed, and the call; signed nonces are consecutive whatever later reads say; what is signed is mined in order, once, and the pool's call finds allowance >= amount |
| `AaveService.Wallet.WithdrawNative` | apps/nfid-frontend/src/integration/aave/aave.service.ts:632-702 | the same for the gateway, with a gas price that is read and gas the wallet can pay for as the only further conditions |
| `AaveService.DeliverOneMore` | apps/nfid-frontend/src/integration/aave/aave.service.ts:580-702 | an operation delivered so far stays delivered with one more transaction of the right nonce and allowance |
| `AaveService.ServedGoesThrough` | apps/nfid-frontend/src/integration/aave/aave.service.ts:621-629 | a transaction that is the account's next goes through when the node returns after some rate-limited attempts, took one of them in, and the chain mines it without reverting |
| `AaveService.ServedOperation` | apps/nfid-frontend/src/integration/aave/aave.service.ts:580-702 | an operation whose node does that for everything signed, with a true first nonce and allowance, goes through: the approval leaves the chain ready for the call |
| `Units.ParseFormat` | apps/nfid-frontend/src/integration/aave/aave.service.ts:344-346 | printing an amount in units and reading it again gives the same integer, for any decimals |
| `Units.ParseWhole` | apps/nfid-frontend/src/features/transfer-modal/utils.ts:271 | a whole number is read as that many units |
| `Units.ParseFraction` | apps/nfid-frontend/src/features/transfer-modal/utils.ts:271 | digits after the point count by their place, and those beyond the decimals must be zeros |
| `Units.ParseRejects` | apps/nfid-frontend/src/features/transfer-modal/utils.ts:271 | empty text, a second point or a character that is neither digit nor point is not read |
| `Units.DecInjective` | apps/nfid-frontend/src/features/transfer-modal/utils.ts:385 | numbers with the same decimal text are equal |
| `Units.DecIntInjective` | apps/nfid-frontend/src/features/transfer-modal/utils.ts:385 | integers, negative ones included, with the same decimal text are equal |
| `SupplyFee.EstimateNativeSupply` | apps/nfid-frontend/src/integration/aave/aave.service.ts:338-389 | an adjusted amount is given exactly when a maximum is supplied and more than the buffered gas cost is there; it reads back as the difference; the network fee uses the price read second |
| `SupplyFee.AdjustedAmountIsAffordableIff` | apps/nfid-frontend/src/integration/aave/aave.service.ts:343-346 | the adjusted amount and the gas at a later price stay within the request exactly when the price rose by at most 20% |
| `BitcoinFee.FeesIncreaseWhileAsking` | apps/nfid-frontend/src/integration/bitcoin/bitcoin.service.ts:100-119 | each request is for the amount and the previous fee, and the fee strictly increases while the search goes on |
| `BitcoinFee.FeeIsPaidOrUnaffordable` | apps/nfid-frontend/src/integration/bitcoin/bitcoin.service.ts:81-121 | the search ends within a bounded number of requests, with a fee the selected outputs pay or the balance cannot |
| `BitcoinFee.FeeIsSelectorsAnswer` | apps/nfid-frontend/src/integration/bitcoin/bitcoin.service.ts:93-120 | the result is the selector's own answer: to the one request for the whole balance, or to the first request, each for the amount plus the fee answered before, whose answer exceeds the balance or is covered by its outputs; an error exactly when a request fails |
| `BitcoinFee.MayAskForever` | apps/nfid-frontend/src/integration/bitcoin/bitcoin.service.ts:102-117 | a selector that does not cover what it is asked for can make the search go on for ever |
| `BalanceQueueKey.SameSortIffPermutation` | apps/nfid-frontend/src/integration/ethereum/erc20-abstract.service.ts:269 | sorted contract lists are equal exactly for permutations |
| `BalanceQueueKey.JoinInjective` | apps/nfid-frontend/src/integration/ethereum/erc20-abstract.service.ts:269 | joining with commas loses nothing |
| `BalanceQueueKey.SameKeyIff` | apps/nfid-frontend/src/integration/ethereum/erc20-abstract.service.ts:263-270 | two requests share a key exactly for the same wallet and permuted contracts, letter case aside |
| `BalanceQueueKey.LowerIgnoresCase` | apps/nfid-frontend/src/integration/ethereum/erc20-abstract.service.ts:263-266 | two texts are equal in lower case exactly when they differ in the case of letters only |
| `BalanceCache.DecodeBalances` | apps/nfid-frontend/src/integration/ethereum/erc20-abstract.service.ts:465-499 | the loop over the multicall's results builds the map described by `DecodedIsByContract` |
| `BalanceCache.DecodedIsByContract` | apps/nfid-frontend/src/integration/ethereum/erc20-abstract.service.ts:465-499 | exactly the requested contracts have a balance: the number, zero included, without an error when the result at the contract's last position is one, and otherwise 0 with an error |
| `BalanceCache.Service.GetMultipleTokenBalances` | apps/nfid-frontend/src/integration/ethereum/erc20-abstract.service.ts:255-292 | every caller who asks for something is given a fetch running under the key of what was asked for; a new one is started exactly when none was; the in-flight map stays exact and running fetches are undisturbed |
| `BalanceCache.Service.Finally` | apps/nfid-frontend/src/integration/ethereum/erc20-abstract.service.ts:283-286 | a settled fetch's key, and no other, leaves the in-flight map, which stays exact |
| `BalanceCache.OneFetchPerKey` | apps/nfid-frontend/src/integration/ethereum/erc20-abstract.service.ts:272-289 | over every interleaving the in-flight map holds exactly the keys being fetched, each by one fetch |
| `BalanceCache.SharersAgree` | apps/nfid-frontend/src/integration/ethereum/erc20-abstract.service.ts:263-292 | whatever fetch answers a call works for the caller's wallet and a permutation of the caller's contracts |
| `BalanceCache.AnswersAgreeWithChain` | apps/nfid-frontend/src/integration/ethereum/erc20-abstract.service.ts:298-380 | over every interleaving, a row has an error exactly when the item returned at its contract's last position was missing, empty or undecodable, and balances without one are the chain's at one moment since their multicall was issued; the entry was written less than 30 s before, or has every contract and a refresh of it had been started; contracts that every request lists are never omitted |
| `BalanceCache.AnswersComeFromReplies` | apps/nfid-frontend/src/integration/ethereum/erc20-abstract.service.ts:438-519 | over every interleaving, what is answered, stored or being decided on is what some multicall returned, or was stored before |
| `BalanceCache.MovesExactly` | apps/nfid-frontend/src/integration/ethereum/erc20-abstract.service.ts:298-519 | a fetch reaches each point exactly by what leads there; what is stored changes only by removing an expired entry or writing a new one; a refresh starts only with an answer from an expired entry |
| `BalanceCache.FetchCanBeAnswered` | apps/nfid-frontend/src/integration/ethereum/erc20-abstract.service.ts:298-519 | after any run, every fetch still going on can be answered by events that concern it |
| `BalanceCache.FailsOnlyAfterRetry` | apps/nfid-frontend/src/integration/ethereum/erc20-abstract.service.ts:438-450 | a fetch fails only when something it awaited threw or its multicall was rejected twice |
| `BalanceCache.RecheckIsRightIff` | apps/nfid-frontend/src/integration/ethereum/erc20-abstract.service.ts:395-414 | a fetch answered by an unexpired entry is right about a contract exactly when the entry has it or its balance is 0 |
| `BalanceCache.ContractCanBeOmitted` | apps/nfid-frontend/src/integration/ethereum/erc20-abstract.service.ts:371-379 | a run in which a contract with balance 5 is answered "0" without an error |
| `EvmAllowances.CollectPairs` | apps/nfid-frontend/src/integration/ethereum/erc20-abstract.service.ts:742-752 | the map holds each pair under its key in order of first occurrence, named as in its last log |
| `EvmAllowances.ReadAllowances` | apps/nfid-frontend/src/integration/ethereum/erc20-abstract.service.ts:789-802 | failed and zero reads are dropped, the others are reported in the map's order |
| `EvmAllowances.FetchEvmAllowances` | apps/nfid-frontend/src/integration/ethereum/erc20-abstract.service.ts:740-804 | the scan reports what a naive pass over the logs reports, in the same order |
| `EvmAllowances.NaiveReportsOnce` | apps/nfid-frontend/src/integration/ethereum/erc20-abstract.service.ts:740-752 | no pair is reported twice, and only pairs of some log are |
| `EvmAllowances.PairsDiffer` | apps/nfid-frontend/src/integration/ethereum/erc20-abstract.service.ts:742-752 | any two allowances reported differ in contract or spender, letter case aside |
| `EvmAllowances.NaiveReportsOnlyRead` | apps/nfid-frontend/src/integration/ethereum/erc20-abstract.service.ts:789-802 | what is reported is the positive allowance read for its contract and spender in lower case, named as the pair's last log does |
| `EvmAllowances.ReportedIff` | apps/nfid-frontend/src/integration/ethereum/erc20-abstract.service.ts:740-804 | a log's contract and spender, letter case aside, are reported with an allowance exactly when that is read for them and positive |
| `SortTokens.TokenList.SortTokens` | apps/nfid-frontend/src/integration/ft/ft-service.ts:636-682 | taking tokens out in place and sorting the rest gives one stable sort by a key |
| `SortTokens.SortedIsByKey` | apps/nfid-frontend/src/integration/ft/ft-service.ts:636-682 | the order: first ICP/BTC/ETH tokens, other natives, first NFIDW/ckBTC/ckETH tokens, the rest by category, each block in input order |
| `SortTokens.Layout` | apps/nfid-frontend/src/integration/ft/ft-service.ts:649-682 | the list starts with the first token of the ICP, BTC and ETH addresses, then come natives only, then the first NFIDW, ckBTC and ckETH, then the others by category |
| `SortTokens.CategoriesInOrder` | apps/nfid-frontend/src/integration/ft/ft-service.ts:637-647 | the order of the categories, by name |
| `SortTokens.SortedIsPermutation` | apps/nfid-frontend/src/integration/ft/ft-service.ts:636-682 | no token is added, lost or repeated |
| `SortTokens.RemovalIsDropFirsts` | apps/nfid-frontend/src/integration/ft/ft-service.ts:656-664 | removing the tokens found one by one removes the first token of each address |
| `SortTokens.SortIsByRank` | apps/nfid-frontend/src/integration/ft/ft-service.ts:673-679 | the stable sort puts each category's tokens in one block, in input order |
| `SortTokens.SortedByCategory` | apps/nfid-frontend/src/integration/ft/ft-service.ts:673-679 | of two sorted tokens the earlier is never of a later category |
| `SortTwice.SortingTwiceIsSortingOnceIff` | apps/nfid-frontend/src/integration/ft/ft-service.ts:636-682 | sorting again changes nothing exactly when no native left over has an NFID address, or those natives match the NFID tokens in their place (for lists of different token objects) |
| `SortTokens.SortingTwiceCanDiffer` | apps/nfid-frontend/src/integration/ft/ft-service.ts:661-664 | lists for which sorting again moves tokens |
| `Paging.GetIcrc2Allowances` | apps/nfid-frontend/src/integration/ft/ft-service.ts:400-432 | the requested slice of all approvals, for any positive chunk size; an error exactly when some token fails, and then the error of one |
| `Paging.FlattenAt` | apps/nfid-frontend/src/integration/ft/ft-service.ts:418-427 | all approvals: those of a token come, in its order, right after those of the tokens before it |
| `Paging.ListIsPrefix` | apps/nfid-frontend/src/features/permissions/utils.ts:38-63 | however loads succeed and fail, the list shown is the beginning of the full list, and no load is left open |
| `Paging.NoMoreMeansComplete` | apps/nfid-frontend/src/features/permissions/utils.ts:45-63 | without failures, no more expected means everything shown; more expected while everything is shown means an empty last page |
| `Paging.FailureStopsLoading` | apps/nfid-frontend/src/features/permissions/index.tsx:96-112 | a failed load ends loading for good, and the list is complete exactly when only the empty last page was missing |
| `Paging.LoadingStops` | apps/nfid-frontend/src/features/permissions/index.tsx:96-112 | after a tenth as many attempts as approvals no more is expected |
| `Paging.RemoveAndUpdateLaws` | apps/nfid-frontend/src/features/permissions/utils.ts:65-101 | removal makes earlier and later updates of the same approval immaterial; of two updates the second stands |
| `Paging.ActionsConcern` | apps/nfid-frontend/src/features/permissions/utils.ts:65-101 | removing and updating concern exactly the approvals of that token to that spender |
| `RevokeAll.GroupByChain` | apps/nfid-frontend/src/integration/ft/ft-service.ts:453-458 | the map has the chains other than the Internet Computer in order of first occurrence, each with its approvals in list order |
| `RevokeAll.ChainsAreSequential` | apps/nfid-frontend/src/integration/ft/ft-service.ts:460-466 | over every interleaving, revocations on one chain other than the Internet Computer do not overlap, follow the list, stop at the first failure; those revoked are a prefix |
| `RevokeAll.IcpStartsAllAtOnce` | apps/nfid-frontend/src/integration/ft/ft-service.ts:447-451 | the approvals on chain 0, the Internet Computer, are all in flight from the start |
| `RevokeAll.ChainGoesOn` | apps/nfid-frontend/src/integration/ft/ft-service.ts:460-466 | whatever happened on other chains, the next approval of a chain without a failure is in flight, and the one after it is started when it is revoked, and only then |
| `RevokeAll.IcpGoesOn` | apps/nfid-frontend/src/integration/ft/ft-service.ts:447-451 | whatever has failed, an approval on the Internet Computer that has ended less often than it is listed can end next |
| `RevokeAll.CallCanResolve` | apps/nfid-frontend/src/integration/ft/ft-service.ts:434-470 | while nothing has failed, successful revocations lead to the call's resolution with all revoked |
| `RevokeAll.NeverRevokedTwice` | apps/nfid-frontend/src/integration/ft/ft-service.ts:434-470 | no approval is revoked more often than it is listed, whatever fails |
| `RevokeAll.ResolvedMeansAllRevoked` | apps/nfid-frontend/src/integration/ft/ft-service.ts:468-470 | when the call resolves, the revoked approvals are exactly the listed ones |
| `RevokeAll.HowTheCallEnds` | apps/nfid-frontend/src/integration/ft/ft-service.ts:447-469 | the call is rejected exactly when a revocation failed, and has ended once nothing is in flight |
| `TokensCache.RestoreOne` | apps/nfid-frontend/src/integration/ft/ft-service.ts:515-548 | the first entry for the token's address and chain is written into it |
| `TokensCache.Deserialize` | apps/nfid-frontend/src/integration/ft/ft-service.ts:513-550 | every token ends as its own entry says, also when one object is listed twice |
| `TokensCache.SavedIsRestored` | apps/nfid-frontend/src/integration/ft/ft-service.ts:486-550 | balance (zero included), rate (null included) and flag come back on the token of the same address and chain; unset fields leave it alone |
| `TokensCache.FreshIsRestored` | apps/nfid-frontend/src/integration/ft/ft-service.ts:486-550 | on a fresh token everything comes back, and saving it again gives the same entry |
| `TokensCache.RateComesBack` | apps/nfid-frontend/src/integration/ft/ft-service.ts:486-550 | the rate of a restored token, field by field |
| `TokensCache.AbsentIsUntouched` | apps/nfid-frontend/src/integration/ft/ft-service.ts:527 | a token that was not saved stays as it is |
| `TokensCache.EntryCountsIff` | apps/nfid-frontend/src/integration/ft/ft-service.ts:516-525 | an entry counts for its address and chain, and one without a chain for its address on every chain unless that is the one all EVM coins share |
| `TokensCache.SaveAndLoad` | apps/nfid-frontend/src/integration/ft/ft-service.ts:486-550 | a list with distinct keys, saved and loaded onto fresh tokens, is restored and saves to the same text |
| `TokenBalances.UpdateOne` | apps/nfid-frontend/src/features/transfer-modal/utils.ts:261-278 | only the first matching token is written, saturating at zero; an unreadable amount writes nothing |
| `TokenBalances.UpdateInNumbers` | apps/nfid-frontend/src/features/transfer-modal/utils.ts:268-276 | the amount read and the fee on top of it are added, or taken down to zero |
| `TokenBalances.ThrowsIff` | apps/nfid-frontend/src/features/transfer-modal/utils.ts:262-271 | an update throws exactly when a token matches and the amount cannot be read |
| `TokenBalances.GetTokensWithUpdatedBalance` | apps/nfid-frontend/src/features/transfer-modal/utils.ts:248-282 | every token's balance is the fold, in order, of the updates that find it; the first unreadable amount ends the loop with the earlier updates made |
| `TokenBalances.HitsIff` | apps/nfid-frontend/src/features/transfer-modal/utils.ts:262-266 | with unique keys an update with a chain counts for a token exactly when address and chain match |
| `TokenBalances.SendingAddsUp` | apps/nfid-frontend/src/features/transfer-modal/utils.ts:268-276 | sent amounts add up however they are split, and the balance stops at zero |
| `TokenBalances.ReceivingAddsUp` | apps/nfid-frontend/src/features/transfer-modal/utils.ts:268-276 | received amounts add up |
| `TokenBalances.RefundRestoresIff` | apps/nfid-frontend/src/features/transfer-modal/utils.ts:272-276 | sending and taking back restores the balance exactly when the balance covered it |
| `TokenBalances.SameTokenKeyIff` | apps/nfid-frontend/src/features/transfer-modal/utils.ts:385 | key texts are equal exactly for the same address and chain, whatever the address contains, negative chains included |
| `TokenBalances.MergeIsByKey` | apps/nfid-frontend/src/features/transfer-modal/utils.ts:384-391 | the catalogue keeps length, order and keys; a token is replaced exactly by the last update of its key |
| `TokenBalances.UpdateAndMerge` | apps/nfid-frontend/src/features/transfer-modal/utils.ts:248-282 | after update and merge each catalogue position shows the fold of exactly the updates for its key, and the others are unchanged |
| `Positions.SupplyThenWithdrawAll` | apps/nfid-frontend/src/features/transfer-modal/utils.ts:347-365 | the first supply of an asset is undone by withdrawing everything |
| `Positions.ChangeIsShown` | apps/nfid-frontend/src/features/transfer-modal/utils.ts:328-379 | a supply or withdrawal moves the balance of the asset's position by the amount, not below zero, and the text shown reads back as that balance; a first supply makes a position of exactly its own data |
| `Positions.SupplyThenWithdrawRestoresIff` | apps/nfid-frontend/src/features/transfer-modal/utils.ts:328-379 | supplying and withdrawing an amount restores the list, whether or not the dollar rate is known, exactly when both sides read the amount alike, or nothing was there and no more came than went |
| `Positions.WithdrawThenSupplyRestoresIff` | apps/nfid-frontend/src/features/transfer-modal/utils.ts:328-379 | withdrawing and supplying restores the list, whether or not the dollar rate is known, exactly when the balance covered the withdrawal |
| `Positions.OthersStay` | apps/nfid-frontend/src/features/transfer-modal/utils.ts:321-379 | positions of other assets and chains stay, in their order |
| `TokenIdentifier.From32Bits` | apps/nfid-frontend/src/integration/entrepot/ext.ts:162-172 | the shift loop reads four bytes as a signed big-endian number |
| `TokenIdentifier.ShiftInByte` | apps/nfid-frontend/src/integration/entrepot/ext.ts:164-167 | shifting in a byte appends it to the number read so far, modulo 2^32 |
| `TokenIdentifier.BytesRoundTrip` | apps/nfid-frontend/src/integration/entrepot/ext.ts:156-172 | the bytes written for an index read back as the index modulo 2^32 |
| `TokenIdentifier.IndexRoundTrip` | apps/nfid-frontend/src/integration/entrepot/ext.ts:156-172 | four bytes read as an index are written as the same bytes |
| `TokenIdentifier.HexIsInjective` | apps/nfid-frontend/src/integration/entrepot/ext.ts:174-178 | comparing hex texts compares the bytes |
| `TokenIdentifier.HexOf` | apps/nfid-frontend/src/integration/entrepot/ext.ts:174-178 | the text has two lower-case hexadecimal digits for each byte, the high one first |
| `TokenIdentifier.Decode` | apps/nfid-frontend/src/integration/entrepot/ext.ts:138-154 | an identifier is decoded exactly when it starts with the bytes 10, "t", "i", "d" |
| `TokenIdentifier.DecodeOfEncode` | apps/nfid-frontend/src/integration/entrepot/ext.ts:128-154 | decoding an encoded token gives the canister and, up to 2^31, the index; beyond, the index less 2^32 |
| `TokenIdentifier.EncodeOfDecode` | apps/nfid-frontend/src/integration/entrepot/ext.ts:128-154 | encoding a decoded identifier gives it back exactly when it has at least eight bytes |

## Left out

- Pages, hooks, routing and wording: user interface, with nothing to prove about order or amounts.
- The network, canisters, signers and nodes: they are parameters, with the assumptions stated where they are used (a multicall is answered from one block; a selector covers what it is asked for).
- The state machine library itself: the models take its documented run-to-completion semantics as given, and that an action which throws, or a service error nobody handles, stops the machine in its last state.
- The authentication machine that both request machines invoke: it completes with any output, or not at all.
- What the browser accepts as the target of a message: an origin comes with whether `postMessage` takes it or throws. The announcements of readiness to the page's referrer are not modelled, nor is the failure of the expiry timer, which leads where its end does.
- The contents of responses, beyond the request they answer and whether they carry a result.
- The text form of principals: a bijection on bytes; JSON text: entries are records.
- Arbitrary-precision decimal numbers of token rates: a rate is kept by its exact text, and the malformed texts on which restoring a balance would throw are excluded, since saving writes none.
- Amount texts: digits with at most one point; a negative amount counts as unreadable.
- Rounding of typed approval amounts through floating point: an update carries the rounded amount.
- Removing and updating approvals while more pages are being loaded: the code does not adjust the server's offset.
- Supplying the native token and withdrawing an ERC-20 token: a single transaction with a nonce just read, which adds nothing to the cases proved.
- The 60-second cache of allowances in front of the log scan, and its one-fetch-per-owner map: the same pattern as the balance cache, with a simpler key.
- Waiting times: the pause before the second multicall, the back-off between broadcasts (its total is stated by `Retry.WithRetry`) and timers are not related to the clock of the balance cache.
- Interleavings are modelled on values: the object `BalanceCache.Service` covers the in-flight map and its two synchronous operations, the steps between awaits are functions on its contents.
- The catalogue map of `TokenBalances.Merge` and the list of positions are expressions in the source, and are functions here.
- A read of the allowance that fails ends an operation before it signs, as a failed estimate does, and is not a case of its own.
- SortTwice.SortingTwiceIsSortingOnceIff: the "only then" half is for lists of different token objects, which is all the wallet builds; in a list with one object twice its two places can be exchanged unnoticed.
- The saved state of a token (active or hidden): it is written to the cache and never read back.
- Refreshing balances and addresses after a transfer, the routing of the transfer dialogue, yields and dollar totals: look-ups and mappings whose properties follow from one body.
