# Verified model of the errand pallet

Clients on the chain ask delegates to run errands. A delegate applies under a
name and activates itself; a client begins a task with that name and reserves a
fee; the delegate initialises the errand; configured accounts submit results; the
submission that completes a quorum finishes the errand and pays the delegate out
of the client's reserve. Off-chain workers carry tasks and results between the
chain and the network, and share persistent cells guarded by compare-and-set
locks. The source is `pallets/abc-demo`.

The project models both halves and proves what holds over every run of the chain
and every interleaving of the workers.

- `Types`, `Ledger`: shared values, and the three balance operations the pallet calls.
- `Pallet`: the six dispatchables as a transition function over the twelve storage
  items, the block number and the balances, and runs from a genesis storage. No
  dispatchable is transactional, so an effect carries the writes made before an error.
- `PalletStorage`: class `Abc`, one field per storage item, methods that check and
  write in the order of the source, each proved to have the effect `Pallet` gives it.
  A ghost history grows by one step with every call that goes through `Execute` and
  with every new block, so the theorems over runs hold of the fields (`HoldsOfObject`).
- `ErrandLife`, `TaskQueue`, `EscrowFlow`, `Hiring`, `DelegateRegistry`, `Payment`:
  theorems over whole runs. Every storage item is tied to the history of the run.
- `Outcomes`: the exact condition of every error and of acceptance, call by call, and
  what a refused call leaves behind.
- `Scenarios`: concrete runs from genesis that reach a completed errand and every
  failure named below.
- `LocalStorage`: the workers' cells and the naming of their keys.
- `LockProtocol`: any number of workers, one storage access at a time, in any order:
  read the lock, swap it, read the cell, hand over one result, write, release.
- `ResultFlow`, `Refinement`, `NodeStorage`: what the locks guarantee, the atomic
  machine the workers refine, and one node's jobs as methods of class `Node`.
- `KeyedProtocol`: the same workers on a store under string keys, simulated by
  `LockProtocol` as long as the clients' strings are apart.
- `KeyedQueue`: the result queue under string keys, safe whatever the clients are called.
- `Workers`, `Provenance`: the loops over chain storage, and the chain and the
  workers of a node together, on the string-keyed store.
- `ErrandIdText`: the text of an errand id.

## What turned out false, and the exact condition

- A finished record is not always final. A step keeps it exactly when it neither
  initialises the cid again nor, in development mode, is an accepted update with
  another result (`ClosedKeptExactly`, reached by `DoneGetsRewritten`). In development
  mode an update can also pay for a task that is not even initialised
  (`DevelopmentModePaysEarly`, reached by `PaymentsComeEarly`).
- The quorum counts submissions, not submitters (`TwoSubmissionsMeetQuorum`). The
  recorded submitters differ exactly on runs in which nobody submits a second time
  for the errand (`DistinctIffNewVoters`); there a finished errand has two different
  submitters (`TwoSubmittersConfirm`). `ErrandsComplete` reaches both cases. An errand
  initialised again completes on a single further submission
  (`ReopenedErrandNeedsOneSubmission`, reached by `DoneErrandsReopen`).
- A refused call does not always leave storage as it was: it changes storage exactly
  when it submits for a finished errand or is a `begin_task` refused after it took the
  block's queue (`RefusedCallsChangeExactly`). The latter loses the queue
  (`QueuesGetLost`). Queued fees equal reserve plus payments exactly on runs in which
  no such refusal dropped a task of the client (`QueueNeverExceedsEscrow`).
- Fee and delegate are kept once per client, so a settlement need not pay the errand's
  own delegate its own fee. `PaymentIsExactly` says for every settlement of every run
  who is paid how much: the last hire not removed since, provided it has an account,
  and the smaller of the last fee and what is outstanding. A second task begun before
  the first is complete redirects the first payment, unless both agree on delegate and
  fee (`SecondTaskRedirectsPayment`, reached by `PaymentsGetRedirected`).
- The registry's maps stay aligned exactly under careful steps (`AlignedIffCareful`).
  `begin_task` can reject a registered name with `ClientNotExist`
  (`CarelessUnreserveStrandsName`, reached by `NamesGetStranded`). On every run it does
  so exactly when the holder of the name was removed since it last applied
  (`ClientMissingExactly`). At no point of a run is such a rejection possible exactly
  when no `unreserve` removes an account that another name maps to
  (`AlwaysRegisteredIffSparing`).
- A lock is released exactly when its holder makes its remaining accesses, however the
  others are scheduled (`HoldersRelease`). If the holder falls silent the lock is never
  taken again (`SilentHolderBlocks`), and any worker can come to be such a holder
  (`DeadWorkerKeepsLock`).
- A client's value key is another client's lock key exactly when the first string is
  "lock-" followed by the second (`KeysCoincideOnly`). With two such clients a save can
  be lost (`ClashLosesSave`). Loads are exact, locks exclusive and runs atomic for
  exactly the sets of clients without such a pair (`LoadsAreExactIffApart`,
  `LocksAreExclusiveIffApart`, `RunsAreAtomicIffApart`); the result queue does not
  depend on it (`KeyedExactlyOnce`). Account strings are base 58, so they contain
  no hyphen and are always apart (`HyphenFreeClientsAreApart`).

The source's own test of `begin_task` (pallets/abc-demo/src/tests.rs:25-119) calls
`request_delegate` and reads task fields with signatures the pallet no longer has;
the model follows the pallet.

## Model

| member | source | states |
|---|---|---|
| `PalletStorage.Abc.constructor` | pallets/abc-demo/src/lib.rs:175-182 | genesis sets mode and update accounts, everything else is empty, endowments are free and nothing is reserved; the history is this genesis |
| `PalletStorage.Abc.Execute` | pallets/abc-demo/src/lib.rs:224-397 | a call has the effect of its handler, and the object stays the last storage of a run from genesis, longer by this step, accepted or not |
| `PalletStorage.Abc.NextBlock` | pallets/abc-demo/src/lib.rs:295 | the block number that the dispatchables read grows by one, recorded in the history |
| `PalletStorage.Abc.HoldsOfObject` | pallets/abc-demo/src/lib.rs:697-707 | of the fields of every object: the index lists the processing errands with their multiplicity, both balances of every account follow from the history, and the total is that of genesis |
| `PalletStorage.Abc.RequestDelegate` | pallets/abc-demo/src/lib.rs:231-253 | whole new storage and outcome of an application: refused for an account that already applied, otherwise entered in all four registry items; `ApplicationsFollowHistory` and `AddressesFollowHistory` say what these then hold |
| `PalletStorage.Abc.UpdateDelegateStatus` | pallets/abc-demo/src/lib.rs:256-269 | only the delegate itself, once registered, becomes active |
| `PalletStorage.Abc.BeginTask` | pallets/abc-demo/src/lib.rs:272-321 | whole new storage and outcome, including the queue lost when a check fails after it was taken; `BeginTaskOutcomes` has the condition of every outcome and `RefusedCallsLeave` what a refusal leaves |
| `PalletStorage.Abc.QueueTask` | pallets/abc-demo/src/lib.rs:295-316 | refused exactly for a queued cid, a zero fee or an uncovered fee; on success the block's queue grows by this task and the fee is reserved, on failure the queue is gone and no money moved |
| `PalletStorage.Abc.ListsCid` | pallets/abc-demo/src/lib.rs:299-301 | finds a duplicate cid in the block's queue exactly when there is one |
| `PalletStorage.Abc.InitErrand` | pallets/abc-demo/src/lib.rs:324-346 | only the client's delegate stores a fresh processing errand and lists it |
| `PalletStorage.Abc.UpdateErrand` | pallets/abc-demo/src/lib.rs:349-385 | whole new storage and outcome, including the submission recorded by a rejected call |
| `PalletStorage.Abc.Unreserve` | pallets/abc-demo/src/lib.rs:388-397 | removes the client's entries, the name, and the address of whoever the name maps to (the default account if nobody) |
| `PalletStorage.Abc.UpdateErrandResult` | pallets/abc-demo/src/lib.rs:777-818 | errand done with this result, unlisted, and the client's fee paid as far as reserved |
| `PalletStorage.Abc.RemoveProcessing` | pallets/abc-demo/src/lib.rs:703-707 | the index loses exactly the entries of this cid, in order |
| `PalletStorage.Abc.AllowToUpdateResult` | pallets/abc-demo/src/lib.rs:765-775 | true exactly when some account is configured to update results |
| `Types.WithoutDropsOnly` | pallets/abc-demo/src/lib.rs:703-707 | retaining drops all copies of one cid and no copy of another |
| `Types.WithoutKeepsOrder` | pallets/abc-demo/src/lib.rs:703-707 | what stays is exactly the other entries in their order |
| `Outcomes.RequestDelegateOutcomes` | pallets/abc-demo/src/lib.rs:231-237 | the exact condition of each error and of acceptance, from storage fields |
| `Outcomes.UpdateDelegateStatusOutcomes` | pallets/abc-demo/src/lib.rs:256-263 | the exact condition of each error and of acceptance: only the delegate itself, once registered |
| `Outcomes.BeginTaskOutcomes` | pallets/abc-demo/src/lib.rs:272-321 | the exact condition of each of seven errors and of acceptance, from storage fields |
| `Outcomes.InitErrandOutcomes` | pallets/abc-demo/src/lib.rs:324-332 | accepted exactly from the client's delegate on record |
| `Outcomes.UpdateErrandOutcomes` | pallets/abc-demo/src/lib.rs:349-375 | the exact condition of each error and of acceptance in either mode |
| `Outcomes.RefusedCallsLeave` | pallets/abc-demo/src/lib.rs:284-316 | what a refused call leaves: a lost queue, a recorded late submission, and nothing in all other cases |
| `Outcomes.RefusedCallsChangeExactly` | pallets/abc-demo/src/lib.rs:284-316 | a refused call changes storage exactly when it loses a queue that is there or submits late |
| `Outcomes.BeginAcceptedExactly` | pallets/abc-demo/src/lib.rs:272-321 | over every run, `begin_task` is accepted exactly when the history says so: an active holder of the name, a cid never initialised nor queued in this block, and a positive fee covered by endowment and income less fees agreed |
| `Ledger.RepatriateConserves` | pallets/abc-demo/src/lib.rs:793-798 | paying out of a reserve keeps the total of all balances |
| `Ledger.ReserveConserves` | pallets/abc-demo/src/lib.rs:305-312 | reserving keeps the total of all balances |
| `ErrandLife.ErrandStep` | pallets/abc-demo/src/lib.rs:334-385 | for every step and every cid, the errand's record and its number of index entries afterwards |
| `ErrandLife.IndexAgreement` | pallets/abc-demo/src/lib.rs:697-707 | in every reachable storage and both modes, an errand is listed as often as it was initialised since last settled, is processing exactly when listed, and is stored under its own cid |
| `ErrandLife.SettlementBound` | pallets/abc-demo/src/lib.rs:373-381 | outside development mode, settlements plus one if still processing never exceed accepted initialisations |
| `ErrandLife.DoneIsFinal` | pallets/abc-demo/src/lib.rs:373-375 | outside development mode a done record stays as it is, and is not settled again, over any continuation without a new initialisation of its cid |
| `ErrandLife.ClosedKeptExactly` | pallets/abc-demo/src/lib.rs:359-375 | in either mode, the exact steps that keep a done record |
| `ErrandLife.DevelopmentModeRewritesDone` | pallets/abc-demo/src/lib.rs:359-361 | in development mode a configured account replaces the result of any done errand; `DoneGetsRewritten` reaches such a state |
| `ErrandLife.QuorumOfSubmissions` | pallets/abc-demo/src/lib.rs:363-382 | outside development mode a done errand has a quorum of recorded submissions, all from configured accounts; a processing one has a quorum exactly when it was settled before |
| `ErrandLife.SubmissionsSettle` | pallets/abc-demo/src/lib.rs:364-381 | over every run outside development mode, every accepted submission but the first settles, and a done record holds the last accepted result |
| `ErrandLife.SecondSubmissionCompletes` | pallets/abc-demo/src/lib.rs:377-381 | an errand initialised once is processing until its second accepted submission, which is the last accepted and whose result is stored |
| `ErrandLife.TwoSubmissionsMeetQuorum` | pallets/abc-demo/src/lib.rs:364-381 | on any run, any two submissions of configured accounts complete an errand without submissions, with the second result; the submitters differ exactly if the accounts do |
| `ErrandLife.DistinctVotesStep` | pallets/abc-demo/src/lib.rs:364-370 | a step leaves the submitters of an errand pairwise different exactly when they were and it does not record one of them again |
| `ErrandLife.DistinctIffNewVoters` | pallets/abc-demo/src/lib.rs:364-370 | over every run from genesis, the submitters of an errand are pairwise different exactly when nobody submitted a second time for it |
| `ErrandLife.TwoSubmittersConfirm` | pallets/abc-demo/src/lib.rs:364-381 | on such runs outside development mode a done errand has two different configured submitters |
| `TaskQueue.QueueShape` | pallets/abc-demo/src/lib.rs:295-316 | every stored queue is of a block that has begun, non-empty, with pairwise distinct cids and positive fees |
| `TaskQueue.QueuesFollowHistory` | pallets/abc-demo/src/lib.rs:295-316 | over every run, a block's queue is the tasks accepted in that block, in order, since a refused call last lost them; no entry if there are none |
| `TaskQueue.PastQueuesAreFixed` | pallets/abc-demo/src/lib.rs:295-316 | the queue of a past block never changes |
| `TaskQueue.NoTaskAfterErrand` | pallets/abc-demo/src/lib.rs:284 | once a cid has an errand, no queue of a later block ever lists it |
| `EscrowFlow.PaymentMoves` | pallets/abc-demo/src/lib.rs:787-798 | a payment moves the smaller of fee and reserve, or nothing if the payee has no account, and touches no other balance |
| `EscrowFlow.BalancesFollowHistory` | pallets/abc-demo/src/lib.rs:303-313 | over every run, reserve plus payments made equals fees agreed, and free balance plus fees agreed equals endowment plus payments received; nobody pays more than agreed |
| `EscrowFlow.MoneyIsConserved` | pallets/abc-demo/src/lib.rs:787-798 | over every run the sum of all free and reserved balances is constant |
| `EscrowFlow.QueuesAccountForFees` | pallets/abc-demo/src/lib.rs:295-316 | every fee agreed is still queued or was lost with a queue |
| `EscrowFlow.QueueNeverExceedsEscrow` | pallets/abc-demo/src/lib.rs:295-316 | queued fees never exceed reserve plus payments, with equality exactly when no refused call dropped a task of the client |
| `Payment.ExactPayment` | pallets/abc-demo/src/lib.rs:787-798 | on orderly runs outside development mode, completion raises the hired delegate's free balance by exactly the fee, empties the reserve and moves nothing else |
| `Payment.OrderlyClientsSettleUp` | pallets/abc-demo/src/lib.rs:272-346 | an idle orderly client has paid all it agreed to; otherwise exactly the current fee is outstanding |
| `Payment.BegunTasksComplete` | pallets/abc-demo/src/lib.rs:324-385 | every begun task of an orderly client can be completed by its delegate and two submissions, with the second result and exact payment |
| `Payment.PaymentIsExactly` | pallets/abc-demo/src/lib.rs:777-798 | for every settlement of every run in either mode, an account gains an amount exactly when it is the last hire not removed since (or else the default account), it has an account or is the client, and the amount is the smaller of the last fee and what is outstanding |
| `Payment.SecondTaskRedirectsPayment` | pallets/abc-demo/src/lib.rs:306-317 | after an overlapping second task, and whatever others do before the settlement, the first delegate is paid its fee exactly when both tasks agree on delegate and fee |
| `Payment.DevelopmentModePaysEarly` | pallets/abc-demo/src/lib.rs:359-361 | in development mode updating an old errand pays out a task not yet initialised; `PaymentsComeEarly` reaches such a state |
| `Scenarios.OrderlyClientsExist` | pallets/abc-demo/src/lib.rs:231-321 | a run from genesis on which an orderly client has begun a task |
| `Scenarios.ErrandsComplete` | pallets/abc-demo/src/lib.rs:324-385 | a run from genesis that completes an errand outside development mode, by two submitters or by one account twice |
| `Scenarios.DoneErrandsReopen` | pallets/abc-demo/src/lib.rs:324-381 | a run from genesis outside development mode on which a done errand is initialised again and completed by one submission |
| `Scenarios.QueuesGetLost` | pallets/abc-demo/src/lib.rs:295-301 | a run from genesis that loses a queue and leaves its fee reserved |
| `Scenarios.PaymentsGetRedirected` | pallets/abc-demo/src/lib.rs:306-317 | a run from genesis on which the first errand is paid with the second fee |
| `Scenarios.NamesGetStranded` | pallets/abc-demo/src/lib.rs:388-397 | a run from genesis, in either mode, after which `begin_task` rejects a registered name with `ClientNotExist` |
| `Scenarios.DoneGetsRewritten` | pallets/abc-demo/src/lib.rs:359-361 | a run from genesis on which a done record gets another result |
| `Scenarios.PaymentsComeEarly` | pallets/abc-demo/src/lib.rs:359-361 | a run from genesis on which a delegate is paid for a task not yet initialised |
| `Hiring.CausalOrder` | pallets/abc-demo/src/lib.rs:237-341 | behind every errand stand, in order, an application, the delegate's own activation, a task of the errand's client resolving to it, and its `init_errand` |
| `Hiring.DelegateIsLastHire` | pallets/abc-demo/src/lib.rs:317 | a client's delegate on record is the one its latest accepted task resolved to, unless removed since |
| `Hiring.InitAcceptedFromLastHire` | pallets/abc-demo/src/lib.rs:331-332 | `init_errand` is accepted exactly from that delegate |
| `Hiring.ReopenedErrandNeedsOneSubmission` | pallets/abc-demo/src/lib.rs:334-381 | outside development mode the current delegate of any client restarts any done errand for that client, and one submission then completes it |
| `DelegateRegistry.AlignedIffCareful` | pallets/abc-demo/src/lib.rs:237-249 | a step keeps statuses, addresses and names aligned exactly when it is careful |
| `DelegateRegistry.RegistryStaysAligned` | pallets/abc-demo/src/lib.rs:388-397 | on careful runs the three maps speak of the same accounts and names are one to one |
| `DelegateRegistry.NoClientMissingIffRegistered` | pallets/abc-demo/src/lib.rs:279-280 | in any storage, no `begin_task` fails with `ClientNotExist` exactly when every name maps to an account with a status |
| `DelegateRegistry.RegisteredIffSpares` | pallets/abc-demo/src/lib.rs:388-397 | from such a registry a step keeps it so exactly when it is no `unreserve` of an account that another name maps to |
| `DelegateRegistry.AlwaysRegisteredIffSparing` | pallets/abc-demo/src/lib.rs:388-397 | over every run from genesis, every name has a status at every point exactly when all steps spare the other names |
| `DelegateRegistry.CarefulRunsSpare` | pallets/abc-demo/src/lib.rs:237-249 | careful runs are sparing |
| `DelegateRegistry.RegistryFollowsHistory` | pallets/abc-demo/src/lib.rs:237-249 | over every run, who holds a name and who has a status, from the accepted applications and the removals |
| `DelegateRegistry.ApplicationsFollowHistory` | pallets/abc-demo/src/lib.rs:238-245 | over every run, the list of a block holds the name and sender of each application accepted in it, in order; no entry if there were none |
| `DelegateRegistry.AddressesFollowHistory` | pallets/abc-demo/src/lib.rs:248 | over every run, an account's address is that of its latest accepted application, unless an `unreserve` of a name it then held removed it |
| `DelegateRegistry.StatusesFollowHistory` | pallets/abc-demo/src/lib.rs:256-269 | over every run, an account is active exactly when it set its own status since it last applied and was not removed |
| `DelegateRegistry.ClientMissingExactly` | pallets/abc-demo/src/lib.rs:279-280 | over every run, a signed `begin_task` fails with `ClientNotExist` exactly when the holder of the name was removed since it last applied |
| `DelegateRegistry.RegisteredNamesHaveDelegates` | pallets/abc-demo/src/lib.rs:279-280 | on sparing runs `begin_task` never fails with `ClientNotExist` |
| `DelegateRegistry.CarelessUnreserveStrandsName` | pallets/abc-demo/src/lib.rs:388-397 | in any storage and from whatever origin, removing an account under another name makes `begin_task` with its own name fail with `ClientNotExist`; `RegisteredIffSpares` has the exact condition |
| `LocalStorage.KeysCoincideOnly` | pallets/abc-demo/src/delegate.rs:11-12 | two different cells share a key exactly when one client's string is "lock-" followed by the other's |
| `LocalStorage.NamingIsInjective` | pallets/abc-demo/src/delegate.rs:97-120 | for hyphen-free clients all value and lock keys are pairwise distinct |
| `LocalStorage.HyphenFreeClientsAreApart` | pallets/abc-demo/src/delegate.rs:97-120 | the set of all hyphen-free client strings is apart |
| `LocalStorage.ApartClientsHaveOwnKeys` | pallets/abc-demo/src/delegate.rs:97-120 | among clients that are apart every cell has its own key |
| `LocalStorage.KeysActAsSlots` | pallets/abc-demo/src/delegate.rs:97-120 | for clients that are apart, writing under a cell's key keeps the store a mirror of the separate cells |
| `LockProtocol.MutualExclusion` | pallets/abc-demo/src/storage.rs:14-33 | under every interleaving a lock is held exactly while one worker is in its critical section |
| `LockProtocol.RefusedChangesNothing` | pallets/abc-demo/src/storage.rs:14-38 | a worker goes on exactly from a free lock that still reads the same; otherwise it answers that it was refused and nothing else changes |
| `LockProtocol.HoldersRelease` | pallets/abc-demo/src/lib.rs:636-655 | whatever the others do, a worker inside leaves exactly when it makes its remaining accesses, whose number is known on entry |
| `LockProtocol.SilentHolderBlocks` | pallets/abc-demo/src/storage.rs:14-33 | a holder that makes no further access keeps the lock, shuts everybody else out and freezes the cell, whatever the others do |
| `LockProtocol.DeadWorkerKeepsLock` | pallets/abc-demo/src/storage.rs:14-33 | from any quiet machine any worker reaches that situation with any job |
| `ResultFlow.ExactlyOnceInOrder` | pallets/abc-demo/src/lib.rs:617-655 | pushed results equal handed results followed by stored ones unless a drain is under way; then the stored list begins with the part handed over |
| `ResultFlow.LoadReadsLatestSave` | pallets/abc-demo/src/delegate.rs:97-130 | on separate cells, under every interleaving a load reads the latest completed save of that client; `KeyedProtocol` carries it over to string keys |
| `KeyedProtocol.SimulatesStep` | pallets/abc-demo/src/delegate.rs:97-130 | for clients that are apart, every access to the string-keyed store is the access to the separate cells |
| `KeyedProtocol.KeyedMutualExclusion` | pallets/abc-demo/src/storage.rs:14-33 | under string keys a lock holds true exactly while one worker is inside, under every interleaving |
| `KeyedQueue.KeyedExactlyOnce` | pallets/abc-demo/src/lib.rs:617-655 | under string keys and for any clients, the queue's lock is exclusive, and pushed results equal handed results followed by stored ones, unless a drain is under way; then the stored list begins with the part handed over |
| `KeyedProtocol.KeyedLoadReadsLatestSave` | pallets/abc-demo/src/delegate.rs:97-130 | under string keys, for clients that are apart, a load reads the latest completed save |
| `KeyedProtocol.ClashLosesSave` | pallets/abc-demo/src/delegate.rs:97-130 | for every client string, a run in which a load of that client loses the save of the client named "lock-" and that string |
| `KeyedProtocol.LoadsAreExactIffApart` | pallets/abc-demo/src/delegate.rs:97-130 | every load of every run over a set of clients reads the latest save exactly when the set is apart |
| `KeyedProtocol.LocksAreExclusiveIffApart` | pallets/abc-demo/src/storage.rs:14-33 | every lock is held exactly while one worker is inside, on every run over a set of clients, exactly when the set is apart |
| `KeyedProtocol.KeyedInterleavingsAreAtomic` | pallets/abc-demo/src/storage.rs:3-40 | under string keys, for clients that are apart, every interleaving has the effect of its effective jobs performed indivisibly, and delivers what was handed over |
| `KeyedProtocol.RunsAreAtomicIffApart` | pallets/abc-demo/src/storage.rs:3-40 | every run over a set of clients is atomic in this sense exactly when the set is apart |
| `Refinement.InterleavingsAreAtomic` | pallets/abc-demo/src/storage.rs:3-40 | on separate cells, every interleaving has the effect of performing its effective jobs one after the other, each indivisibly, and what they deliver is what was handed over, unless a drain is under way; `KeyedProtocol` carries it over to string keys |
| `Refinement.OneEffectPerSuccess` | pallets/abc-demo/src/storage.rs:29-39 | a worker's calls that return something else than a refusal are its effective accesses, one for one |
| `Refinement.RepliesAreHonest` | pallets/abc-demo/src/storage.rs:14-39 | over every run, a returned call answers for the job it was started with; the answer is a refusal exactly when none of its accesses was effective, and otherwise that of the indivisible job at its one effective access |
| `Refinement.EffectiveLeadsToRelease` | pallets/abc-demo/src/storage.rs:29-33 | the effective access carries the reply of the indivisible job and leads straight to the release |
| `NodeStorage.Node.TryLock` | pallets/abc-demo/src/storage.rs:14-27 | whatever others do between the read and the swap, takes the lock exactly when it was free and still reads the same, and otherwise writes nothing |
| `NodeStorage.Node.SwapLock` | pallets/abc-demo/src/storage.rs:14-27 | the compare-and-set writes exactly when the lock still reads as seen |
| `NodeStorage.Node.PushResult` | pallets/abc-demo/src/task.rs:44-58 | appends one result atomically and releases, or changes nothing |
| `NodeStorage.Node.LoadTasksResults` | pallets/abc-demo/src/lib.rs:617-655 | hands over all stored results in order, empties the list and releases, or changes nothing |
| `NodeStorage.Node.SaveDelegateInfo` | pallets/abc-demo/src/delegate.rs:97-110 | registers the information of one client and no other, or changes nothing |
| `NodeStorage.Node.LoadDelegateInfo` | pallets/abc-demo/src/delegate.rs:112-130 | returns what is registered for the client and changes nothing readable |
| `Workers.SendErrandTasks` | pallets/abc-demo/src/lib.rs:475-543 | the calls issued for a block are those of its queue up to the first unregistered name |
| `Workers.FilterSigners` | pallets/abc-demo/src/lib.rs:497-502 | exactly the local keys of the delegate |
| `Workers.SendsExactly` | pallets/abc-demo/src/lib.rs:488-543 | the calls come in the order of the queue, for each sent entry before the first unregistered name as many as its delegate has local keys |
| `Workers.DispatchFollowsQueue` | pallets/abc-demo/src/lib.rs:488-543 | a call is issued exactly for a sent entry before the first unregistered name whose delegate is local, signed by the account its name maps to |
| `Workers.DispatchAcceptedFromLastHire` | pallets/abc-demo/src/lib.rs:524-536 | an issued call is accepted later exactly when its signer is still the client's latest hire |
| `Workers.QueryErrandTaskResults` | pallets/abc-demo/src/lib.rs:556-598 | the node's result list grows, in order, by the completed responses for listed errands (none off the tenth blocks or without a configured key); with the lock taken nothing is stored |
| `Workers.FetchSingleTaskResult` | pallets/abc-demo/src/task.rs:16-60 | a completed response is appended to the stored results; with the lock taken, or for any other response, nothing happens |
| `Workers.QueryPassIsExactly` | pallets/abc-demo/src/lib.rs:556-598 | over every run, a pass at a height divisible by ten with a configured key fetches the completed response of every open errand, in index order, and nothing else; any other pass fetches nothing |
| `Workers.FetchAllIsExactly` | pallets/abc-demo/src/task.rs:32-42 | what is fetched is exactly the completed responses for listed errands, in order |
| `Workers.UpdateErrandTaskResults` | pallets/abc-demo/src/lib.rs:600-615 | with a configured key and the lock free, all stored results are handed over in order; otherwise nothing changes |
| `Workers.OffchainWorker` | pallets/abc-demo/src/lib.rs:399-406 | after one invocation on a node with a configured key and a free lock, what was stored and what was fetched have been submitted in this order and the list is empty; otherwise storage is unchanged |
| `Workers.FetchAllIsGenuine` | pallets/abc-demo/src/task.rs:37-42 | everything fetched is a completed response for a listed errand |
| `Provenance.UpdatesComeFromFetches` | pallets/abc-demo/src/lib.rs:600-676 | every `update_errand` a worker issues carries cid and result of a response to a pass that ran on a node with a configured key, at a height divisible by ten, while the errand was open, and that was marked completed; under string keys, for any clients |
| `ErrandIdText.IdParsesBack` | pallets/abc-demo/src/lib.rs:417-423 | every hash prints as 36 lower-case characters that parse back to its bytes, each in its place, with only byte 6 and byte 8 changed by version and variant |
| `ErrandIdText.IdPrintsBytesInPlace` | pallets/abc-demo/src/lib.rs:417-423 | the digits of every byte stand at their own place in the text, high half first, and hyphens part the groups |
| `ErrandIdText.IdIsRandomUuid` | pallets/abc-demo/src/lib.rs:417-420 | version digit 4 and variant digit 8, 9, a or b, as for a random UUID |
| `ErrandIdText.IdsCoincideOnFreeBits` | pallets/abc-demo/src/lib.rs:417-423 | two hashes print alike exactly when they agree on the 122 free bits |

## Left out

- `node/` and `runtime/`: command line, service, chain specification and configuration of Substrate libraries.
- HTTP, protobuf, base64, hex, JSON and URLs: whether a task could be sent and what a query answers are parameters.
- Signatures, key store, hashing and randomness: the signer is a given account, the hash any 16 bytes, and the errand id drawn by `begin_task` a parameter of the call.
- Account encoding: a number stands for the 32 bytes, so the conversion error for other lengths cannot arise.
- The balances pallet beyond reserve, unreserve and repatriate: existential deposit, locks, dust, transfers, transaction fees and overflow at the width of a balance.
- `apply_delegates`: only chooses, per application of a block, between two calls that are modelled here.
- Off-chain `unreserve` of a fee (lines 517 and 534 of lib.rs): not committed to chain state.
- Events, weights and logging.
- Overflow of the block number.
- `NodeStorage`: the jobs of class `Node` run without interruption; interrupted jobs are the subject of `LockProtocol` and `KeyedProtocol`.
- `Workers.QueryErrandTaskResults` and the other loops of `Workers` likewise run without interruption; pushes that interleave with other workers are in `LockProtocol` and `Provenance`.
- A worker that dies is a worker that makes no further access; a restarted node that clears its locks is not modelled.
- Cell contents are typed: a cell of one kind is unreadable as another, while the bytes of one encoding could happen to decode as another.
