/** Where the money is, over whole runs: every balance is determined by the fees
    agreed and the payments made, and the queues account for the fees. */
module EscrowFlow {
  import opened Types
  import opened Ledger
  import opened Pallet
  import opened TaskQueue

  /******* One payment *******/

  predicate Pays(s: Storage, step: Step) {
    step.Dispatch? && step.call.UpdateErrand? && Settles(s, step, step.call.cid)
  }

  function Payer(s: Storage, step: Step): AccountId
    requires Pays(s, step)
  {
    s.work.errands[step.call.cid].client
  }

  function Beneficiary(s: Storage, step: Step): AccountId
    requires Pays(s, step)
  {
    Payee(s.escrow, Payer(s, step))
  }

  /** By how much a settling step raises the beneficiary's free balance. */
  function Raise(s: Storage, step: Step): int
    requires Pays(s, step)
  {
    var to := Beneficiary(s, step);
    Free(Next(s, step).storage.escrow.balances, to) - Free(s.escrow.balances, to)
  }

  /** What arrives was taken out of the client's reserve, nothing else moves,
      and as much of the fee arrives as was still reserved, unless the
      beneficiary has no account to pay into. */
  lemma PaymentMoves(x: Escrow, client: AccountId, a: AccountId)
    ensures var l, l', to := x.balances, PayFee(x, client), Payee(x, client);
            var amount := Free(l', to) - Free(l, to);
            && amount == (if to == client || to in l then Min(Reserved(l, client), FeeOf(x, client)) else 0)
            && Reserved(l', client) == Reserved(l, client) - amount
            && (a != to ==> Free(l', a) == Free(l, a))
            && (a != client ==> Reserved(l', a) == Reserved(l, a))
            && l'.Keys == l.Keys
  {
  }

  lemma BalancesStep(s: Storage, step: Step)
    ensures Next(s, step).storage.escrow.balances ==
            if BeginsTask(s, step) then Reserve(s.escrow.balances, step.origin.who, step.call.fee).value
            else if Pays(s, step) then PayFee(s.escrow, Payer(s, step))
            else s.escrow.balances
    ensures BeginsTask(s, step) ==> 0 < step.call.fee <= Free(s.escrow.balances, step.origin.who)
  {
  }

  /******* Sums over a run *******/

  /** The fees of the client's accepted `begin_task` calls. */
  function FeesAgreed(r: Run, client: AccountId): nat {
    if r.Genesis? then 0
    else FeesAgreed(r.past, client) + if Begins(Now(r.past), r.step, client) then r.step.call.fee else 0
  }

  /** Everything that reached a beneficiary for errands of this client. */
  function PaidFrom(r: Run, client: AccountId): int {
    if r.Genesis? then 0
    else
      var s := Now(r.past);
      PaidFrom(r.past, client) + if Pays(s, r.step) && Payer(s, r.step) == client then Raise(s, r.step) else 0
  }

  /** Everything this account was paid. */
  function ReceivedBy(r: Run, a: AccountId): int {
    if r.Genesis? then 0
    else
      var s := Now(r.past);
      ReceivedBy(r.past, a) + if Pays(s, r.step) && Beneficiary(s, r.step) == a then Raise(s, r.step) else 0
  }

  /******* Escrow conservation *******/

  /** Both balances of every account follow from the history, and no client ever
      pays more in total than the fees it agreed to. */
  lemma {:induction false} BalancesFollowHistory(r: Run, a: AccountId)
    requires FromGenesis(r)
    ensures var l, l0 := Now(r).escrow.balances, GenesisOf(r).escrow.balances;
            && Reserved(l, a) + PaidFrom(r, a) == FeesAgreed(r, a)
            && Free(l, a) + FeesAgreed(r, a) == Free(l0, a) + ReceivedBy(r, a)
    ensures 0 <= PaidFrom(r, a) <= FeesAgreed(r, a)
    ensures 0 <= ReceivedBy(r, a)
  {
    if r.Then? {
      var s := Now(r.past);
      BalancesFollowHistory(r.past, a);
      BalancesStep(s, r.step);
      if Pays(s, r.step) {
        PaymentMoves(s.escrow, Payer(s, r.step), a);
      }
    }
  }

  /** The total of all free and reserved balances is the one of the genesis. */
  lemma {:induction false} MoneyIsConserved(r: Run)
    ensures Total(Now(r).escrow.balances) == Total(GenesisOf(r).escrow.balances)
  {
    if r.Then? {
      var s := Now(r.past);
      MoneyIsConserved(r.past);
      BalancesStep(s, r.step);
      if BeginsTask(s, r.step) {
        ReserveConserves(s.escrow.balances, r.step.origin.who, r.step.call.fee);
      } else if Pays(s, r.step) {
        var c := Payer(s, r.step);
        RepatriateConserves(s.escrow.balances, c, Payee(s.escrow, c), FeeOf(s.escrow, c));
      }
    }
  }

  /******* Queues against escrow *******/

  function FeesIn(q: seq<TaskInfo>, client: AccountId): nat {
    if q == [] then 0
    else FeesIn(q[..|q| - 1], client) + if q[|q| - 1].client == client then q[|q| - 1].fee else 0
  }

  /** The client's fees over the queues of all blocks below `n`. */
  function QueuedBelow(tasks: map<BlockNumber, seq<TaskInfo>>, client: AccountId, n: nat): nat {
    if n == 0 then 0 else QueuedBelow(tasks, client, n - 1) + FeesIn(Get(tasks, n - 1, []), client)
  }

  predicate SameQueue(t: map<BlockNumber, seq<TaskInfo>>, t': map<BlockNumber, seq<TaskInfo>>, b: nat) {
    (b in t <==> b in t') && (b in t ==> t[b] == t'[b])
  }

  lemma {:induction false} QueuedBelowFrame(t: map<BlockNumber, seq<TaskInfo>>, t': map<BlockNumber, seq<TaskInfo>>, client: AccountId, n: nat)
    requires forall b: nat :: b < n ==> SameQueue(t, t', b)
    ensures QueuedBelow(t, client, n) == QueuedBelow(t', client, n)
  {
    if n > 0 {
      QueuedBelowFrame(t, t', client, n - 1);
      assert SameQueue(t, t', n - 1);
    }
  }

  /** No queue lies beyond the current block, so this sums all of them. */
  function Queued(s: Storage, client: AccountId): nat {
    QueuedBelow(s.escrow.tasks, client, s.block + 1)
  }

  /** The client's fees in queues that refused `begin_task` calls lost. */
  function LostFees(r: Run, client: AccountId): nat {
    if r.Genesis? then 0
    else LostFees(r.past, client) + if LosesQueue(Now(r.past), r.step) then FeesIn(Queue(Now(r.past)), client) else 0
  }

  lemma QueuedStep(s: Storage, step: Step, client: AccountId)
    requires s.block + 1 !in s.escrow.tasks
    ensures Queued(Next(s, step).storage, client)
         == Queued(s, client)
            + (if Begins(s, step, client) then step.call.fee else 0)
            - (if LosesQueue(s, step) then FeesIn(Queue(s), client) else 0)
  {
    var s' := Next(s, step).storage;
    TasksStep(s, step);
    if !step.NextBlock? {
      QueuedBelowFrame(s.escrow.tasks, s'.escrow.tasks, client, s.block);
    }
    if BeginsTask(s, step) {
      var q := Queue(s) + [NewTask(step)];
      assert q[..|q| - 1] == Queue(s);
    }
  }

  /** Every fee a client agreed to is either still in a queue or was lost with
      one. */
  lemma {:induction false} QueuesAccountForFees(r: Run, client: AccountId)
    requires FromGenesis(r)
    ensures Queued(Now(r), client) + LostFees(r, client) == FeesAgreed(r, client)
  {
    if r.Genesis? {
      assert Get(Now(r).escrow.tasks, 0, []) == [];
      assert QueuedBelow(Now(r).escrow.tasks, client, 1) == 0;
    } else {
      QueuesAccountForFees(r.past, client);
      QueueShape(r.past, Now(r.past).block + 1);
      QueuedStep(Now(r.past), r.step, client);
    }
  }

  predicate Mentions(q: seq<TaskInfo>, client: AccountId) {
    exists i :: 0 <= i < |q| && q[i].client == client
  }

  /** No `begin_task` was refused after it took a queue with a task of this client. */
  predicate NeverLost(r: Run, client: AccountId) {
    r.Then? ==> NeverLost(r.past, client) && !(LosesQueue(Now(r.past), r.step) && Mentions(Queue(Now(r.past)), client))
  }

  lemma {:induction false} FeesInPositive(q: seq<TaskInfo>, client: AccountId)
    requires PositiveFees(q)
    ensures FeesIn(q, client) > 0 <==> Mentions(q, client)
  {
    if q != [] {
      var rest := q[..|q| - 1];
      FeesInPositive(rest, client);
      assert forall i :: 0 <= i < |rest| ==> q[i] == rest[i];
    }
  }

  lemma {:induction false} NothingLostMeansNoLoss(r: Run, client: AccountId)
    requires FromGenesis(r)
    ensures LostFees(r, client) == 0 <==> NeverLost(r, client)
  {
    if r.Then? {
      NothingLostMeansNoLoss(r.past, client);
      QueueShape(r.past, Now(r.past).block);
      FeesInPositive(Queue(Now(r.past)), client);
    }
  }

  /** The fees queued for a client never exceed what is reserved plus what was
      paid out for it, and are equal to it exactly on the runs in which no
      refused `begin_task` dropped a task of this client. */
  lemma QueueNeverExceedsEscrow(r: Run, client: AccountId)
    requires FromGenesis(r)
    ensures var held := Reserved(Now(r).escrow.balances, client) + PaidFrom(r, client);
            && Queued(Now(r), client) <= held
            && (Queued(Now(r), client) == held <==> NeverLost(r, client))
  {
    QueuesAccountForFees(r, client);
    BalancesFollowHistory(r, client);
    NothingLostMeansNoLoss(r, client);
  }
}
