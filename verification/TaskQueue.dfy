/** The per-block task queues over whole runs. */
module TaskQueue {
  import opened Types
  import opened Ledger
  import opened Pallet

  /** The name maps to an account with status true. */
  predicate ActiveName(g: Registry, name: DelegatorName) {
    && name in g.delegateAccounts
    && g.delegateAccounts[name] in g.delegates && g.delegates[g.delegateAccounts[name]]
  }

  /** A `begin_task` that is refused after it took the block's queue: signed, with
      an active name and a cid without an errand, but a queued task has the cid,
      the fee is zero, or it is not covered. */
  predicate LosesQueue(s: Storage, step: Step) {
    && step.Dispatch? && step.call.BeginTask? && step.origin.Signed?
    && ActiveName(s.registry, step.call.name)
    && step.call.cid !in s.work.errands
    && (Lists(Queue(s), step.call.cid) || step.call.fee == 0 || Free(s.escrow.balances, step.origin.who) < step.call.fee)
  }

  function NewTask(step: Step): TaskInfo
    requires step.Dispatch? && step.call.BeginTask? && step.origin.Signed?
  {
    TaskInfo(step.origin.who, step.call.name, step.call.cid, step.call.errandId, step.call.fee)
  }

  predicate BeginsTask(s: Storage, step: Step) {
    step.Dispatch? && step.origin.Signed? && Begins(s, step, step.origin.who)
  }

  lemma TasksStep(s: Storage, step: Step)
    ensures Next(s, step).storage.escrow.tasks ==
            if BeginsTask(s, step) then s.escrow.tasks[s.block := Queue(s) + [NewTask(step)]]
            else if LosesQueue(s, step) then s.escrow.tasks - {s.block}
            else s.escrow.tasks
    ensures BeginsTask(s, step) ==>
              && step.call.cid !in s.work.errands
              && !Lists(Queue(s), step.call.cid)
              && step.call.fee > 0
    ensures Next(s, step).storage.block == if step.NextBlock? then s.block + 1 else s.block
  {
  }

  /** The tasks accepted while the block number was `b`, in order, since a refused
      `begin_task` last lost them. */
  function TasksIn(r: Run, b: BlockNumber): seq<TaskInfo> {
    if r.Genesis? then
      []
    else
      var s := Now(r.past);
      if s.block != b then TasksIn(r.past, b)
      else if LosesQueue(s, r.step) then []
      else TasksIn(r.past, b) + if BeginsTask(s, r.step) then [NewTask(r.step)] else []
  }

  lemma {:induction false} QueuesFollowHistory(r: Run, b: BlockNumber)
    requires FromGenesis(r)
    ensures var tasks := Now(r).escrow.tasks;
            && (b in tasks <==> TasksIn(r, b) != [])
            && (b in tasks ==> tasks[b] == TasksIn(r, b))
  {
    if r.Then? {
      QueuesFollowHistory(r.past, b);
      TasksStep(Now(r.past), r.step);
    }
  }

  predicate DistinctCids(q: seq<TaskInfo>) {
    forall i, j :: 0 <= i < j < |q| ==> q[i].descriptionCid != q[j].descriptionCid
  }

  predicate PositiveFees(q: seq<TaskInfo>) {
    forall i :: 0 <= i < |q| ==> q[i].fee > 0
  }

  /** Every stored queue belongs to a block that has begun, is not empty, asks
      for pairwise distinct cids and offers a positive fee for each. */
  lemma {:induction false} QueueShape(r: Run, b: BlockNumber)
    requires FromGenesis(r)
    ensures var s := Now(r);
            b in s.escrow.tasks ==>
              && b <= s.block && s.escrow.tasks[b] != []
              && DistinctCids(s.escrow.tasks[b]) && PositiveFees(s.escrow.tasks[b])
  {
    if r.Then? {
      QueueShape(r.past, b);
      TasksStep(Now(r.past), r.step);
    }
  }

  lemma {:induction false} BlocksOnlyGrow(before: Run, r: Run)
    requires Continues(r, before)
    ensures Now(before).block <= Now(r).block
  {
    if r != before {
      BlocksOnlyGrow(before, r.past);
      TasksStep(Now(r.past), r.step);
    }
  }

  /** The queue of a block that is over never changes again. */
  lemma {:induction false} PastQueuesAreFixed(before: Run, r: Run, b: BlockNumber)
    requires Continues(r, before) && b < Now(before).block
    ensures b in Now(r).escrow.tasks <==> b in Now(before).escrow.tasks
    ensures b in Now(r).escrow.tasks ==> Now(r).escrow.tasks[b] == Now(before).escrow.tasks[b]
  {
    if r != before {
      PastQueuesAreFixed(before, r.past, b);
      BlocksOnlyGrow(before, r.past);
      TasksStep(Now(r.past), r.step);
    }
  }

  lemma ErrandsStay(s: Storage, step: Step, k: Cid)
    requires k in s.work.errands
    ensures k in Next(s, step).storage.work.errands
  {
  }

  /** Once a cid has an errand, no queue of a later block ever asks for it. */
  lemma {:induction false} NoTaskAfterErrand(before: Run, r: Run, k: Cid, b: BlockNumber)
    requires FromGenesis(before) && Continues(r, before)
    requires k in Now(before).work.errands && b > Now(before).block
    ensures k in Now(r).work.errands
    ensures !Lists(Get(Now(r).escrow.tasks, b, []), k)
  {
    if r == before {
      QueueShape(before, b);
    } else {
      NoTaskAfterErrand(before, r.past, k, b);
      ErrandsStay(Now(r.past), r.step, k);
      TasksStep(Now(r.past), r.step);
    }
  }
}
