/** When each call is accepted, with which error it is refused, and what a refused
    call leaves behind; from storage fields alone, and for `begin_task` from the
    history alone. */
module Outcomes {
  import opened Types
  import opened Ledger
  import opened Pallet
  import opened ErrandLife
  import opened TaskQueue
  import opened EscrowFlow
  import opened Hiring
  import opened DelegateRegistry

  /******* The exact condition of every outcome *******/

  function OutcomeOf(s: Storage, origin: Origin, call: Call): Outcome {
    Next(s, Dispatch(origin, call)).outcome
  }

  lemma RequestDelegateOutcomes(s: Storage, origin: Origin, name: DelegatorName, netAddress: NetAddress)
    ensures var outcome := OutcomeOf(s, origin, RequestDelegate(name, netAddress));
            && (outcome == Err(BadOrigin) <==> origin == Unsigned)
            && (outcome == Err(ClientAlreadyExists) <==> origin.Signed? && origin.who in s.registry.delegates)
            && (outcome == Ok <==> origin.Signed? && origin.who !in s.registry.delegates)
  {
  }

  lemma UpdateDelegateStatusOutcomes(s: Storage, origin: Origin, updater: AccountId)
    ensures var outcome := OutcomeOf(s, origin, UpdateDelegateStatus(updater));
            && (outcome == Err(BadOrigin) <==> origin == Unsigned)
            && (outcome == Err(NoRightToUpdateDelegate) <==> origin.Signed? && origin.who != updater)
            && (outcome == Err(ClientNotExist) <==> origin == Signed(updater) && updater !in s.registry.delegates)
            && (outcome == Ok <==> origin == Signed(updater) && updater in s.registry.delegates)
  {
  }

  lemma BeginTaskOutcomes(s: Storage, origin: Origin, name: DelegatorName, cid: Cid, fee: U32, id: ErrandId)
    ensures var outcome, g := OutcomeOf(s, origin, BeginTask(name, cid, fee, id)), s.registry;
            var known := origin.Signed? && name in g.delegateAccounts;
            var free := known && ActiveName(g, name) && cid !in s.work.errands && !Lists(Queue(s), cid);
            && (outcome == Err(BadOrigin) <==> origin == Unsigned)
            && (outcome == Err(ClientDelegatorNotExist) <==> origin.Signed? && name !in g.delegateAccounts)
            && (outcome == Err(ClientNotExist) <==> known && g.delegateAccounts[name] !in g.delegates)
            && (outcome == Err(ClientNotReady) <==>
                  known && g.delegateAccounts[name] in g.delegates && !g.delegates[g.delegateAccounts[name]])
            && (outcome == Err(ErrandAlreadyExecuted) <==>
                  known && ActiveName(g, name) && (cid in s.work.errands || Lists(Queue(s), cid)))
            && (outcome == Err(InsufficientFee) <==> free && fee == 0)
            && (outcome == Err(InsufficientBalance) <==> free && fee > Free(s.escrow.balances, origin.who))
            && (outcome == Ok <==> free && 0 < fee <= Free(s.escrow.balances, origin.who))
  {
  }

  lemma InitErrandOutcomes(s: Storage, origin: Origin, client: AccountId, id: ErrandId, cid: Cid)
    ensures var outcome, m := OutcomeOf(s, origin, InitErrand(client, id, cid)), s.escrow.clientDelegate;
            && (outcome == Err(BadOrigin) <==> origin == Unsigned)
            && (outcome == Err(ClientDelegatorNotExist) <==> origin.Signed? && !(client in m && origin == Signed(m[client])))
            && (outcome == Ok <==> client in m && origin == Signed(m[client]))
  {
  }

  lemma UpdateErrandOutcomes(s: Storage, origin: Origin, cid: Cid, result: Bytes)
    ensures var outcome, w := OutcomeOf(s, origin, UpdateErrand(cid, result)), s.work;
            var allowed := origin.Signed? && cid in w.errands && origin.who in s.config.updateResultAccounts;
            var late := !s.config.developmentMode && Closed(w, cid);
            && (outcome == Err(BadOrigin) <==> origin == Unsigned)
            && (outcome == Err(ErrandTaskNotExist) <==> origin.Signed? && cid !in w.errands)
            && (outcome == Err(NoRightToUpdateErrand) <==>
                  origin.Signed? && cid in w.errands && origin.who !in s.config.updateResultAccounts)
            && (outcome == Err(ErrandTaskCompleted) <==> allowed && late)
            && (outcome == Ok <==> allowed && !late)
  {
  }

  /******* What a refused call leaves behind *******/

  /** A submission for a finished errand, recorded though it is refused. */
  predicate SubmitsLate(s: Storage, step: Step) {
    step.Dispatch? && step.call.UpdateErrand? && Records(s, step, step.call.cid) && Closed(s.work, step.call.cid)
  }

  /** Two kinds of refused calls leave a trace and no others do: one loses the
      block's queue, the other adds the sender to the recorded submissions. */
  lemma RefusedCallsLeave(s: Storage, step: Step)
    requires Next(s, step).outcome.Err?
    ensures var s' := Next(s, step).storage;
            if LosesQueue(s, step) then
              s' == s.(escrow := s.escrow.(tasks := s.escrow.tasks - {s.block}))
            else if SubmitsLate(s, step) then
              var votes := Votes(s.work, step.call.cid) + [step.origin.who];
              s' == s.(work := s.work.(completedErrands := s.work.completedErrands[step.call.cid := votes]))
            else
              s' == s
  {
  }

  /** Exactly so: a refused call changes storage if and only if it loses a queue
      that is there or submits late. */
  lemma RefusedCallsChangeExactly(s: Storage, step: Step)
    requires Next(s, step).outcome.Err?
    ensures Next(s, step).storage != s <==>
              (LosesQueue(s, step) && s.block in s.escrow.tasks) || SubmitsLate(s, step)
  {
    RefusedCallsLeave(s, step);
    if LosesQueue(s, step) {
      if s.block !in s.escrow.tasks {
        assert s.escrow.tasks - {s.block} == s.escrow.tasks;
      }
    } else if SubmitsLate(s, step) {
      VoteStep(s, step, step.call.cid);
      assert |Votes(Next(s, step).storage.work, step.call.cid)| == |Votes(s.work, step.call.cid)| + 1;
    }
  }

  /******* From the history alone *******/

  lemma {:induction false} ErrandsAreInitialised(r: Run, k: Cid)
    requires FromGenesis(r)
    ensures k in Now(r).work.errands <==> InitCount(r, k) > 0
  {
    if r.Then? {
      ErrandsAreInitialised(r.past, k);
      ErrandStep(Now(r.past), r.step, k);
    }
  }

  /** What the client was endowed with and has been paid, less what it agreed to. */
  function Spendable(r: Run, c: AccountId): int {
    Free(GenesisOf(r).escrow.balances, c) + ReceivedBy(r, c) - FeesAgreed(r, c)
  }

  /** On every run a `begin_task` is accepted exactly when it is signed, the
      holder of the name activated itself and was not removed since, the cid was
      never initialised nor asked for in this block since the queue was last
      lost, and the fee is positive and covered. */
  lemma BeginAcceptedExactly(r: Run, c: AccountId, name: DelegatorName, cid: Cid, fee: U32, id: ErrandId)
    requires FromGenesis(r)
    ensures Begins(Now(r), Dispatch(Signed(c), BeginTask(name, cid, fee, id)), c) <==>
              && HolderOf(r, name).Some? && ActiveSince(r, HolderOf(r, name).value)
              && InitCount(r, cid) == 0 && !Lists(TasksIn(r, Now(r).block), cid)
              && 0 < fee <= Spendable(r, c)
  {
    BeginTaskOutcomes(Now(r), Signed(c), name, cid, fee, id);
    RegistryFollowsHistory(r, name, 0);
    if HolderOf(r, name).Some? {
      StatusesFollowHistory(r, HolderOf(r, name).value);
    }
    ErrandsAreInitialised(r, cid);
    QueuesFollowHistory(r, Now(r).block);
    BalancesFollowHistory(r, c);
  }
}
