/** The errand pallet as a transition function over its storage items. No
    dispatchable is transactional: an effect keeps the writes made before an
    error, so `Effect` always carries a storage as well as an outcome. */
module Pallet {
  import opened Types
  import opened Ledger

  const MIN_UPDATE_RESULT_ACCOUNT := 2

  /** Delegates: who applied, where each listens, which name each took. */
  datatype Registry = Registry(
    delegates: map<AccountId, bool>,
    delegateNetAddress: map<AccountId, NetAddress>,
    delegateAccounts: map<DelegatorName, AccountId>,
    delegatesApplys: map<BlockNumber, seq<(DelegatorName, AccountId)>>)

  /** Errands, the submissions recorded for each, and the index of open ones. */
  datatype Work = Work(
    errands: map<Cid, Errand>,
    completedErrands: map<Cid, seq<AccountId>>,
    processingErrands: seq<Cid>)

  /** What clients owe, to whom, and the tasks they queued in each block. */
  datatype Escrow = Escrow(
    clientTaskFee: map<AccountId, U32>,
    clientDelegate: map<AccountId, AccountId>,
    tasks: map<BlockNumber, seq<TaskInfo>>,
    balances: Balances)

  /** Written by the genesis build and by nothing else. */
  datatype Config = Config(
    developmentMode: bool,
    updateResultAccounts: seq<AccountId>)

  datatype Storage = Storage(
    block: BlockNumber,
    registry: Registry,
    work: Work,
    escrow: Escrow,
    config: Config)

  datatype Origin = Signed(who: AccountId) | Unsigned

  /** A call's arguments. `BeginTask` also carries the errand id that the pallet
      draws from on-chain randomness while it runs. */
  datatype Call =
    | RequestDelegate(name: DelegatorName, netAddress: NetAddress)
    | UpdateDelegateStatus(updater: AccountId)
    | BeginTask(name: DelegatorName, cid: Cid, fee: U32, errandId: ErrandId)
    | InitErrand(client: AccountId, errandId: ErrandId, cid: Cid)
    | UpdateErrand(cid: Cid, result: Bytes)
    | Unreserve(name: DelegatorName, client: AccountId)

  datatype Step = NextBlock | Dispatch(origin: Origin, call: Call)

  datatype Effect = Effect(storage: Storage, outcome: Outcome)

  /******* The dispatchables *******/

  function RequestDelegateEffect(s: Storage, origin: Origin, name: DelegatorName, netAddress: NetAddress): Effect {
    if origin.Unsigned? then
      Effect(s, Err(BadOrigin))
    else if origin.who in s.registry.delegates then
      Effect(s, Err(ClientAlreadyExists))
    else
      var who, g := origin.who, s.registry;
      Effect(s.(registry := Registry(
                  g.delegates[who := false],
                  g.delegateNetAddress[who := netAddress],
                  g.delegateAccounts[name := who],
                  g.delegatesApplys[s.block := Get(g.delegatesApplys, s.block, []) + [(name, who)]])),
             Ok)
  }

  function UpdateDelegateStatusEffect(s: Storage, origin: Origin, updater: AccountId): Effect {
    if origin.Unsigned? then
      Effect(s, Err(BadOrigin))
    else if origin.who != updater then
      Effect(s, Err(NoRightToUpdateDelegate))
    else if origin.who !in s.registry.delegates then
      Effect(s, Err(ClientNotExist))
    else
      Effect(s.(registry := s.registry.(delegates := s.registry.delegates[origin.who := true])), Ok)
  }

  /** The error a `begin_task` meets before it touches storage, if any. */
  function BeginTaskRefusal(s: Storage, origin: Origin, name: DelegatorName, cid: Cid): Option<Error> {
    var g := s.registry;
    if origin.Unsigned? then
      Some(BadOrigin)
    else if name !in g.delegateAccounts then
      Some(ClientDelegatorNotExist)
    else if g.delegateAccounts[name] !in g.delegates then
      Some(ClientNotExist)
    else if !g.delegates[g.delegateAccounts[name]] then
      Some(ClientNotReady)
    else if cid in s.work.errands then
      Some(ErrandAlreadyExecuted)
    else
      None
  }

  predicate Lists(queue: seq<TaskInfo>, cid: Cid) {
    exists i :: 0 <= i < |queue| && queue[i].descriptionCid == cid
  }

  function Queue(s: Storage): seq<TaskInfo> {
    Get(s.escrow.tasks, s.block, [])
  }

  /** The error a `begin_task` meets after it took the block's queue, if any. */
  function BeginTaskLateRefusal(s: Storage, client: AccountId, cid: Cid, fee: U32): Option<Error> {
    if Lists(Queue(s), cid) then
      Some(ErrandAlreadyExecuted)
    else if fee == 0 then
      Some(InsufficientFee)
    else if Free(s.escrow.balances, client) < fee then
      Some(InsufficientBalance)
    else
      None
  }

  /** A late refusal leaves the block's queue taken out of storage. */
  function BeginTaskEffect(s: Storage, origin: Origin, name: DelegatorName, cid: Cid, fee: U32, errandId: ErrandId): Effect {
    var early := BeginTaskRefusal(s, origin, name, cid);
    if early.Some? then
      Effect(s, Err(early.value))
    else
      var client, x := origin.who, s.escrow;
      var late := BeginTaskLateRefusal(s, client, cid, fee);
      if late.Some? then
        Effect(s.(escrow := x.(tasks := x.tasks - {s.block})), Err(late.value))
      else
        var task := TaskInfo(client, name, cid, errandId, fee);
        Effect(s.(escrow := Escrow(
                    x.clientTaskFee[client := fee],
                    x.clientDelegate[client := s.registry.delegateAccounts[name]],
                    x.tasks[s.block := Queue(s) + [task]],
                    Reserve(x.balances, client, fee).value)),
               Ok)
  }

  function InitErrandEffect(s: Storage, origin: Origin, client: AccountId, errandId: ErrandId, cid: Cid): Effect {
    if origin.Unsigned? then
      Effect(s, Err(BadOrigin))
    else if client !in s.escrow.clientDelegate || origin.who != s.escrow.clientDelegate[client] then
      Effect(s, Err(ClientDelegatorNotExist))
    else
      var w := s.work;
      Effect(s.(work := w.(errands := w.errands[cid := Errand(client, errandId, cid, Processing, [])],
                           processingErrands := w.processingErrands + [cid])),
             Ok)
  }

  /** Who is paid for an errand of this client, and how much is asked for. */
  function Payee(x: Escrow, client: AccountId): AccountId {
    Get(x.clientDelegate, client, DEFAULT_ACCOUNT)
  }

  function FeeOf(x: Escrow, client: AccountId): U32 {
    Get(x.clientTaskFee, client, 0)
  }

  /** A payment that fails is only logged. */
  function PayFee(x: Escrow, client: AccountId): Balances {
    var paid := RepatriateReserved(x.balances, client, Payee(x, client), FeeOf(x, client));
    if paid.Some? then paid.value else x.balances
  }

  function Complete(w: Work, cid: Cid, result: Bytes): Work {
    if cid in w.errands then
      w.(errands := w.errands[cid := w.errands[cid].(status := Done, result := result)],
         processingErrands := Without(w.processingErrands, cid))
    else
      w.(processingErrands := Without(w.processingErrands, cid))
  }

  /** `update_errand_result`. */
  function Settle(s: Storage, cid: Cid, result: Bytes): Storage {
    s.(work := Complete(s.work, cid, result),
       escrow := if cid in s.work.errands
                 then s.escrow.(balances := PayFee(s.escrow, s.work.errands[cid].client))
                 else s.escrow)
  }

  function Votes(w: Work, cid: Cid): seq<AccountId> {
    Get(w.completedErrands, cid, [])
  }

  function Vote(w: Work, cid: Cid, who: AccountId): Work {
    w.(completedErrands := w.completedErrands[cid := Votes(w, cid) + [who]])
  }

  /** Outside development mode a submission is recorded before the errand's
      status is looked at. */
  function UpdateErrandEffect(s: Storage, origin: Origin, cid: Cid, result: Bytes): Effect {
    if origin.Unsigned? then
      Effect(s, Err(BadOrigin))
    else if cid !in s.work.errands then
      Effect(s, Err(ErrandTaskNotExist))
    else if origin.who !in s.config.updateResultAccounts then
      Effect(s, Err(NoRightToUpdateErrand))
    else if s.config.developmentMode then
      Effect(Settle(s, cid, result), Ok)
    else
      var voted := s.(work := Vote(s.work, cid, origin.who));
      if s.work.errands[cid].status.Done? then
        Effect(voted, Err(ErrandTaskCompleted))
      else if |Votes(voted.work, cid)| >= MIN_UPDATE_RESULT_ACCOUNT then
        Effect(Settle(voted, cid, result), Ok)
      else
        Effect(voted, Ok)
  }

  /** Checks neither the origin nor that the name maps to the client. */
  function UnreserveEffect(s: Storage, name: DelegatorName, client: AccountId): Effect {
    var g, x := s.registry, s.escrow;
    Effect(s.(registry := g.(delegates := g.delegates - {client},
                             delegateNetAddress := g.delegateNetAddress - {Get(g.delegateAccounts, name, DEFAULT_ACCOUNT)},
                             delegateAccounts := g.delegateAccounts - {name}),
              escrow := x.(clientDelegate := x.clientDelegate - {client})),
           Ok)
  }

  function Next(s: Storage, step: Step): Effect {
    match step
    case NextBlock => Effect(s.(block := s.block + 1), Ok)
    case Dispatch(origin, call) =>
      match call
      case RequestDelegate(name, netAddress) => RequestDelegateEffect(s, origin, name, netAddress)
      case UpdateDelegateStatus(updater) => UpdateDelegateStatusEffect(s, origin, updater)
      case BeginTask(name, cid, fee, errandId) => BeginTaskEffect(s, origin, name, cid, fee, errandId)
      case InitErrand(client, errandId, cid) => InitErrandEffect(s, origin, client, errandId, cid)
      case UpdateErrand(cid, result) => UpdateErrandEffect(s, origin, cid, result)
      case Unreserve(name, client) => UnreserveEffect(s, name, client)
  }

  /******* Runs *******/

  datatype Run = Genesis(storage: Storage) | Then(past: Run, step: Step)

  function Now(r: Run): Storage {
    match r
    case Genesis(s) => s
    case Then(past, step) => Next(Now(past), step).storage
  }

  function GenesisOf(r: Run): Storage {
    match r
    case Genesis(s) => s
    case Then(past, _) => GenesisOf(past)
  }

  /** The genesis build sets the configuration and endows free balances. */
  predicate IsGenesis(s: Storage) {
    && s.block == 0
    && s.registry == Registry(map[], map[], map[], map[])
    && s.work == Work(map[], map[], [])
    && s.escrow == Escrow(map[], map[], map[], s.escrow.balances)
    && forall a :: a in s.escrow.balances ==> s.escrow.balances[a].reserved == 0
  }

  predicate FromGenesis(r: Run) {
    IsGenesis(GenesisOf(r))
  }

  /** `r` continues `past` by any number of steps. */
  predicate Continues(r: Run, past: Run) {
    r == past || (r.Then? && Continues(r.past, past))
  }

  predicate Begins(s: Storage, step: Step, client: AccountId) {
    && step.Dispatch? && step.call.BeginTask?
    && step.origin == Signed(client) && Next(s, step).outcome.Ok?
  }

  predicate Inits(s: Storage, step: Step, cid: Cid) {
    step.Dispatch? && step.call.InitErrand? && step.call.cid == cid && Next(s, step).outcome.Ok?
  }

  /** Exactly when a step runs `update_errand_result` for this errand. */
  predicate Settles(s: Storage, step: Step, cid: Cid) {
    && step.Dispatch? && step.call.UpdateErrand? && step.call.cid == cid
    && cid in s.work.errands
    && step.origin.Signed? && step.origin.who in s.config.updateResultAccounts
    && (s.config.developmentMode
        || (s.work.errands[cid].status.Processing? && |Votes(s.work, cid)| + 1 >= MIN_UPDATE_RESULT_ACCOUNT))
  }

  lemma StepKeepsConfiguration(s: Storage, step: Step)
    ensures Next(s, step).storage.config == s.config
  {
  }

  lemma {:induction false} ConfigurationIsFixed(r: Run)
    ensures Now(r).config == GenesisOf(r).config
  {
    if r.Then? {
      ConfigurationIsFixed(r.past);
      StepKeepsConfiguration(Now(r.past), r.step);
    }
  }
}
