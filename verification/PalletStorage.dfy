/** The pallet as it runs: one field per storage item, each dispatchable a
    method that checks and writes in the order of the source. Every handler is
    proved to have the effect that `Pallet` gives it, including the writes that
    stay behind when it fails. Calls arrive through `Execute`, which extends the
    object's history by one step, as does `NextBlock`; so what is proved of runs
    holds of an object used through these two. */
module PalletStorage {
  import opened Types
  import opened Ledger
  import opened Pallet
  import opened ErrandLife
  import opened EscrowFlow

  class Abc {
    var block: BlockNumber
    var errands: map<Cid, Errand>
    var delegates: map<AccountId, bool>
    var completedErrands: map<Cid, seq<AccountId>>
    var clientTaskFee: map<AccountId, U32>
    var clientDelegate: map<AccountId, AccountId>
    var delegateNetAddress: map<AccountId, NetAddress>
    var delegateAccounts: map<DelegatorName, AccountId>
    var tasks: map<BlockNumber, seq<TaskInfo>>
    var delegatesApplys: map<BlockNumber, seq<(DelegatorName, AccountId)>>
    var processingErrands: seq<Cid>
    var developmentMode: bool
    var updateResultAccounts: seq<AccountId>
    var balances: Balances

    /** Everything that happened to the object since its genesis. */
    ghost var history: Run

    ghost predicate Valid()
      reads this
    {
      FromGenesis(history) && Now(history) == View()
    }

    ghost function View(): Storage
      reads this
    {
      Storage(block,
              Registry(delegates, delegateNetAddress, delegateAccounts, delegatesApplys),
              Work(errands, completedErrands, processingErrands),
              Escrow(clientTaskFee, clientDelegate, tasks, balances),
              Config(developmentMode, updateResultAccounts))
    }

    constructor (developmentMode: bool, updateResultAccounts: seq<AccountId>, endowed: map<AccountId, nat>)
      ensures Valid() && history == Genesis(View())
      ensures View().config == Config(developmentMode, updateResultAccounts)
      ensures balances.Keys == endowed.Keys && forall a :: a in endowed ==> Free(balances, a) == endowed[a]
    {
      block := 0;
      errands, completedErrands, processingErrands := map[], map[], [];
      delegates, delegateNetAddress, delegateAccounts, delegatesApplys := map[], map[], map[], map[];
      clientTaskFee, clientDelegate, tasks := map[], map[], map[];
      this.developmentMode, this.updateResultAccounts := developmentMode, updateResultAccounts;
      balances := map a | a in endowed :: Account(endowed[a], 0);
      new;
      history := Genesis(View());
    }

    /** What runs keep, said of the fields: the index agrees with the errands,
        every balance follows from the history, and no money is made or lost. */
    lemma HoldsOfObject(k: Cid, a: AccountId)
      requires Valid()
      ensures multiset(processingErrands)[k] == InitsSinceSettled(history, k)
      ensures k in processingErrands <==> k in errands && errands[k].status.Processing?
      ensures Reserved(balances, a) + PaidFrom(history, a) == FeesAgreed(history, a)
      ensures Free(balances, a) + FeesAgreed(history, a) == Free(GenesisOf(history).escrow.balances, a) + ReceivedBy(history, a)
      ensures Total(balances) == Total(GenesisOf(history).escrow.balances)
    {
      IndexAgreement(history, k);
      BalancesFollowHistory(history, a);
      MoneyIsConserved(history);
    }

    method NextBlock()
      requires Valid()
      modifies `block, `history
      ensures Valid() && history == Then(old(history), Step.NextBlock)
      ensures block == old(block) + 1
    {
      history := Then(history, Step.NextBlock);
      block := block + 1;
    }

    /** The one way a call reaches its handler: `decl_module` matches on the call.
        The step is added to the history whether or not it is accepted. */
    method Execute(origin: Origin, call: Call) returns (outcome: Outcome)
      requires Valid()
      modifies this
      ensures Valid() && history == Then(old(history), Dispatch(origin, call))
      ensures Effect(View(), outcome) == Next(old(View()), Dispatch(origin, call))
    {
      match call {
        case RequestDelegate(name, netAddress) => outcome := RequestDelegate(origin, name, netAddress);
        case UpdateDelegateStatus(updater) => outcome := UpdateDelegateStatus(origin, updater);
        case BeginTask(name, cid, fee, errandId) => outcome := BeginTask(origin, name, cid, fee, errandId);
        case InitErrand(client, errandId, cid) => outcome := InitErrand(origin, client, errandId, cid);
        case UpdateErrand(cid, result) => outcome := UpdateErrand(origin, cid, result);
        case Unreserve(name, client) =>
          Unreserve(name, client);
          outcome := Ok;
      }
      history := Then(history, Dispatch(origin, call));
    }

    method RequestDelegate(origin: Origin, name: DelegatorName, netAddress: NetAddress) returns (outcome: Outcome)
      modifies `delegates, `delegateNetAddress, `delegateAccounts, `delegatesApplys
      ensures Effect(View(), outcome) == RequestDelegateEffect(old(View()), origin, name, netAddress)
    {
      if origin.Unsigned? {
        return Err(BadOrigin);
      }
      var sender := origin.who;
      if sender in delegates {
        return Err(ClientAlreadyExists);
      }
      if block in delegatesApplys {
        var accounts := delegatesApplys[block];
        delegatesApplys := delegatesApplys - {block};
        accounts := accounts + [(name, sender)];
        delegatesApplys := delegatesApplys[block := accounts];
        TakeThenInsert(old(delegatesApplys), block, accounts);
      } else {
        delegatesApplys := delegatesApplys[block := [(name, sender)]];
        assert [(name, sender)] == [] + [(name, sender)];
      }
      delegates := delegates[sender := false];
      delegateNetAddress := delegateNetAddress[sender := netAddress];
      delegateAccounts := delegateAccounts[name := sender];
      return Ok;
    }

    method UpdateDelegateStatus(origin: Origin, updater: AccountId) returns (outcome: Outcome)
      modifies `delegates
      ensures Effect(View(), outcome) == UpdateDelegateStatusEffect(old(View()), origin, updater)
    {
      if origin.Unsigned? {
        return Err(BadOrigin);
      }
      var sender := origin.who;
      if sender != updater {
        return Err(NoRightToUpdateDelegate);
      }
      if sender !in delegates {
        return Err(ClientNotExist);
      }
      delegates := delegates[sender := true];
      return Ok;
    }

    method BeginTask(origin: Origin, name: DelegatorName, cid: Cid, fee: U32, errandId: ErrandId) returns (outcome: Outcome)
      modifies `tasks, `balances, `clientTaskFee, `clientDelegate
      ensures Effect(View(), outcome) == BeginTaskEffect(old(View()), origin, name, cid, fee, errandId)
    {
      if origin.Unsigned? {
        return Err(BadOrigin);
      }
      var client := origin.who;
      if name !in delegateAccounts {
        return Err(ClientDelegatorNotExist);
      }
      if delegateAccounts[name] !in delegates {
        return Err(ClientNotExist);
      }
      var delegator := delegateAccounts[name];
      if !delegates[delegator] {
        return Err(ClientNotReady);
      }
      if cid in errands {
        return Err(ErrandAlreadyExecuted);
      }
      outcome := QueueTask(TaskInfo(client, name, cid, errandId, fee));
      if outcome.Ok? {
        clientDelegate := clientDelegate[client := delegator];
      }
    }

    /** Takes the block's queue out of storage, and puts it back longer by one
        task only if no check fails in between. */
    method QueueTask(task: TaskInfo) returns (outcome: Outcome)
      modifies `tasks, `balances, `clientTaskFee
      ensures outcome == if Lists(Queue(old(View())), task.descriptionCid) then Err(ErrandAlreadyExecuted)
                         else if task.fee == 0 then Err(InsufficientFee)
                         else if Free(old(balances), task.client) < task.fee then Err(InsufficientBalance)
                         else Ok
      ensures outcome.Err? ==>
                && tasks == old(tasks) - {block}
                && balances == old(balances) && clientTaskFee == old(clientTaskFee)
      ensures outcome.Ok? ==>
                && tasks == old(tasks)[block := Queue(old(View())) + [task]]
                && Some(balances) == Reserve(old(balances), task.client, task.fee)
                && clientTaskFee == old(clientTaskFee)[task.client := task.fee]
    {
      if block in tasks {
        var taskArray := tasks[block];
        tasks := tasks - {block};
        var listed := ListsCid(taskArray, task.descriptionCid);
        if listed {
          return Err(ErrandAlreadyExecuted);
        }
        taskArray := taskArray + [task];
        outcome := ReserveFee(task.client, task.fee);
        if outcome.Err? {
          return;
        }
        tasks := tasks[block := taskArray];
        TakeThenInsert(old(tasks), block, taskArray);
      } else {
        assert tasks == tasks - {block};
        outcome := ReserveFee(task.client, task.fee);
        if outcome.Err? {
          return;
        }
        tasks := tasks[block := [task]];
        assert [task] == [] + [task];
      }
    }

    /** The scan of a block's queue for a task that already asks for this cid. */
    static method ListsCid(queue: seq<TaskInfo>, cid: Cid) returns (found: bool)
      ensures found == Lists(queue, cid)
    {
      for i := 0 to |queue|
        invariant !Lists(queue[..i], cid)
      {
        if queue[i].descriptionCid == cid {
          return true;
        }
      }
      assert queue[..|queue|] == queue;
      return false;
    }

    /** The checks and writes common to both branches of `begin_task`. */
    method ReserveFee(client: AccountId, fee: U32) returns (outcome: Outcome)
      modifies `balances, `clientTaskFee
      ensures fee == 0 ==> outcome == Err(InsufficientFee)
      ensures fee != 0 && Reserve(old(balances), client, fee).None? ==> outcome == Err(InsufficientBalance)
      ensures fee != 0 && Reserve(old(balances), client, fee).Some? ==> outcome.Ok?
      ensures outcome.Err? ==> balances == old(balances) && clientTaskFee == old(clientTaskFee)
      ensures outcome.Ok? ==> fee > 0 && Reserve(old(balances), client, fee) == Some(balances)
      ensures outcome.Ok? ==> clientTaskFee == old(clientTaskFee)[client := fee]
    {
      if fee == 0 {
        return Err(InsufficientFee);
      }
      var reserved := Reserve(balances, client, fee);
      if reserved.None? {
        return Err(InsufficientBalance);
      }
      balances := reserved.value;
      clientTaskFee := clientTaskFee[client := fee];
      return Ok;
    }

    method InitErrand(origin: Origin, client: AccountId, errandId: ErrandId, cid: Cid) returns (outcome: Outcome)
      modifies `errands, `processingErrands
      ensures Effect(View(), outcome) == InitErrandEffect(old(View()), origin, client, errandId, cid)
    {
      if origin.Unsigned? {
        return Err(BadOrigin);
      }
      if client !in clientDelegate {
        return Err(ClientDelegatorNotExist);
      }
      if origin.who != clientDelegate[client] {
        return Err(ClientDelegatorNotExist);
      }
      errands := errands[cid := Errand(client, errandId, cid, Processing, [])];
      AddProcessing(cid);
      return Ok;
    }

    method UpdateErrand(origin: Origin, cid: Cid, result: Bytes) returns (outcome: Outcome)
      modifies `errands, `completedErrands, `processingErrands, `balances
      ensures Effect(View(), outcome) == UpdateErrandEffect(old(View()), origin, cid, result)
    {
      if origin.Unsigned? {
        return Err(BadOrigin);
      }
      var sender := origin.who;
      if cid !in errands {
        return Err(ErrandTaskNotExist);
      }
      var allowed := AllowToUpdateResult(updateResultAccounts, [sender]);
      if !allowed {
        return Err(NoRightToUpdateErrand);
      }
      if developmentMode {
        UpdateErrandResult(cid, result);
      } else {
        if cid in completedErrands {
          var errandArray := completedErrands[cid];
          completedErrands := completedErrands - {cid};
          errandArray := errandArray + [sender];
          completedErrands := completedErrands[cid := errandArray];
          TakeThenInsert(old(completedErrands), cid, errandArray);
        } else {
          completedErrands := completedErrands[cid := [sender]];
          assert [sender] == [] + [sender];
        }
        if errands[cid].status != Processing {
          return Err(ErrandTaskCompleted);
        }
        if |completedErrands[cid]| >= MIN_UPDATE_RESULT_ACCOUNT {
          UpdateErrandResult(cid, result);
        }
      }
      return Ok;
    }

    method Unreserve(name: DelegatorName, client: AccountId)
      modifies `delegates, `clientDelegate, `delegateNetAddress, `delegateAccounts
      ensures Effect(View(), Ok) == UnreserveEffect(old(View()), name, client)
    {
      delegates := delegates - {client};
      clientDelegate := clientDelegate - {client};
      var delegator := Get(delegateAccounts, name, DEFAULT_ACCOUNT);
      delegateNetAddress := delegateNetAddress - {delegator};
      delegateAccounts := delegateAccounts - {name};
    }

    method UpdateErrandResult(cid: Cid, result: Bytes)
      modifies `errands, `processingErrands, `balances
      ensures View() == Settle(old(View()), cid, result)
    {
      if cid in errands {
        errands := errands[cid := errands[cid].(status := Done, result := result)];
      }
      RemoveProcessing(cid);
      if cid in errands {
        var client := errands[cid].client;
        var delegator := Get(clientDelegate, client, DEFAULT_ACCOUNT);
        var fee := Get(clientTaskFee, client, 0);
        var paid := RepatriateReserved(balances, client, delegator, fee);
        if paid.Some? {
          balances := paid.value;
        }
      }
    }

    method AddProcessing(cid: Cid)
      modifies `processingErrands
      ensures processingErrands == old(processingErrands) + [cid]
    {
      processingErrands := processingErrands + [cid];
    }

    method RemoveProcessing(cid: Cid)
      modifies `processingErrands
      ensures processingErrands == Without(old(processingErrands), cid)
    {
      var all, kept := processingErrands, [];
      for i := 0 to |all|
        invariant kept == Without(all[..i], cid)
      {
        assert all[..i + 1][..i] == all[..i];
        if all[i] != cid {
          kept := kept + [all[i]];
        }
      }
      assert all[..|all|] == all;
      processingErrands := kept;
    }

    static method AllowToUpdateResult(updaters: seq<AccountId>, accounts: seq<AccountId>) returns (allowed: bool)
      ensures allowed <==> exists a :: a in updaters && a in accounts
    {
      for i := 0 to |updaters|
        invariant forall a :: a in updaters[..i] ==> a !in accounts
      {
        for j := 0 to |accounts|
          invariant updaters[i] !in accounts[..j]
        {
          if updaters[i] == accounts[j] {
            assert updaters[i] in updaters;
            return true;
          }
        }
      }
      return false;
    }
  }
}
