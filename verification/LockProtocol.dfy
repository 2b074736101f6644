/** Off-chain workers as interleaved small steps on shared cells. A worker takes
    a lock by reading its cell and swapping it if it has not changed since, works
    on the protected cell, and releases the lock. Any number of workers run, in
    any order, one access at a time. */
module LockProtocol {
  import opened Types
  import opened LocalStorage

  datatype Job =
    | Append(item: Item)
    | Drain
    | Save(client: string, info: DelegateInfo)
    | Load(client: string)

  function Target(job: Job): Resource {
    match job
    case Append(_) => ResultQueue
    case Drain => ResultQueue
    case Save(c, _) => ClientRegister(c)
    case Load(c) => ClientRegister(c)
  }

  datatype Reply = Refused | Performed | Loaded(info: Option<DelegateInfo>)

  /** Where a worker is: the access it makes next. */
  datatype Pc =
    | ReadLock(job: Job)
    | SwapLock(job: Job, seen: Option<Cell>)
    | Enter(job: Job)
    | Write(item: Item, items: seq<Item>)
    | Submit(items: seq<Item>, next: nat)
    | Release(job: Job, reply: Reply)
    | Returned(job: Job, reply: Reply)

  type WorkerId = nat

  /** The cells under their keys, the workers, and a record of what has
      happened: the results pushed, the results handed to `update_single_errand`,
      and the saves that were completed. */
  datatype Shared<K> = Machine(
    cells: map<K, Cell>,
    workers: map<WorkerId, Pc>,
    pushed: seq<Item>,
    handed: seq<Item>,
    saves: seq<(string, DelegateInfo)>)

  /** Workers on cells that are kept apart by construction. */
  type Machine = Shared<Slot>

  datatype Action = Start(worker: WorkerId, job: Job) | Go(worker: WorkerId)

  predicate FreeLock(lock: Option<Cell>) {
    lock == None || lock == Some(Flag(false))
  }

  function ItemsIn(cell: Option<Cell>): seq<Item> {
    match cell
    case Some(Results(items)) => items
    case _ => []
  }

  function InfoIn(cell: Option<Cell>): Option<DelegateInfo> {
    match cell
    case Some(Info(info)) => Some(info)
    case _ => None
  }

  /******* One access *******/

  /** The cell a worker at this place accesses next. */
  function Accessed(pc: Pc): Slot {
    match pc
    case Enter(job) => ValueOf(Target(job))
    case Write(_, _) => ValueOf(ResultQueue)
    case Submit(_, _) => ValueOf(ResultQueue)
    case _ => LockOf(Target(pc.job))
  }

  /** Where a worker goes, given what it finds in the cell. */
  function Proceed(pc: Pc, cell: Option<Cell>): Pc {
    match pc
    case ReadLock(job) => if FreeLock(cell) then SwapLock(job, cell) else Returned(job, Refused)
    case SwapLock(job, seen) => if cell == seen then Enter(job) else Returned(job, Refused)
    case Enter(Append(item)) => Write(item, ItemsIn(cell) + [item])
    case Enter(Drain) => if cell.Some? && cell.value.Results? then Submit(cell.value.items, 0) else Release(Drain, Performed)
    case Enter(Save(c, info)) => Release(Save(c, info), Performed)
    case Enter(Load(c)) => Release(Load(c), Loaded(InfoIn(cell)))
    case Write(item, _) => Release(Append(item), Performed)
    case Submit(items, next) => if next < |items| then Submit(items, next + 1) else Release(Drain, Performed)
    case Release(job, reply) => Returned(job, reply)
    case Returned(_, _) => pc
  }

  /** What it writes into the cell, if anything. */
  function Written(pc: Pc, cell: Option<Cell>): Option<Cell> {
    match pc
    case SwapLock(_, seen) => if cell == seen then Some(Flag(true)) else None
    case Enter(Save(_, info)) => Some(Info(info))
    case Write(_, items) => Some(Results(items))
    case Submit(items, next) => if next < |items| then None else Some(Results([]))
    case Release(_, _) => Some(Flag(false))
    case _ => None
  }

  function PushedBy(pc: Pc): seq<Item> {
    if pc.Write? then [pc.item] else []
  }

  function HandedBy(pc: Pc): seq<Item> {
    if pc.Submit? && pc.next < |pc.items| then [pc.items[pc.next]] else []
  }

  function SavedBy(pc: Pc): seq<(string, DelegateInfo)> {
    if pc.Release? && pc.job.Save? then [(pc.job.client, pc.job.info)] else []
  }

  /** The worker's next access, when the cell it goes to lies under this key. */
  function AccessAt<K>(m: Shared<K>, w: WorkerId, k: K): Shared<K>
    requires w in m.workers
  {
    var pc, cell := m.workers[w], Lookup(m.cells, k);
    Machine(if Written(pc, cell).Some? then m.cells[k := Written(pc, cell).value] else m.cells,
            m.workers[w := Proceed(pc, cell)],
            m.pushed + PushedBy(pc), m.handed + HandedBy(pc), m.saves + SavedBy(pc))
  }

  function Begin<K>(m: Shared<K>, w: WorkerId, job: Job): Shared<K> {
    if w in m.workers && !m.workers[w].Returned? then m else m.(workers := m.workers[w := ReadLock(job)])
  }

  function Do(m: Machine, a: Action): Machine {
    match a
    case Start(w, job) => Begin(m, w, job)
    case Go(w) => if w in m.workers then AccessAt(m, w, Accessed(m.workers[w])) else m
  }

  function After(m: Machine, actions: seq<Action>): Machine
    decreases |actions|
  {
    if actions == [] then m else After(Do(m, actions[0]), actions[1..])
  }

  function Stored(cells: Cells): seq<Item> {
    ItemsIn(Lookup(cells, ValueOf(ResultQueue)))
  }

  function Registered(cells: Cells, client: string): Option<DelegateInfo> {
    InfoIn(Lookup(cells, ValueOf(ClientRegister(client))))
  }

  function LockCell(m: Machine, r: Resource): Option<Cell> {
    Lookup(m.cells, LockOf(r))
  }

  /******* Mutual exclusion *******/

  predicate Inside(pc: Pc) {
    pc.Enter? || pc.Write? || pc.Submit? || pc.Release?
  }

  function Protects(pc: Pc): Resource
    requires Inside(pc)
  {
    if pc.Write? || pc.Submit? then ResultQueue else Target(pc.job)
  }

  predicate Holds<K>(m: Shared<K>, w: WorkerId, r: Resource) {
    w in m.workers && Inside(m.workers[w]) && Protects(m.workers[w]) == r
  }

  predicate Locked(m: Machine, r: Resource) {
    LockCell(m, r) == Some(Flag(true))
  }

  /** The lock is held exactly when one worker is in its critical section. */
  ghost predicate Exclusive(m: Machine, r: Resource) {
    && (Locked(m, r) <==> exists w :: Holds(m, w, r))
    && (forall w, v :: Holds(m, w, r) && Holds(m, v, r) ==> w == v)
  }

  /** Only the worker that acts changes place. */
  lemma OthersStay(m: Machine, a: Action, w: WorkerId, r: Resource)
    requires w != a.worker
    ensures Holds(Do(m, a), w, r) <==> Holds(m, w, r)
    ensures w in m.workers <==> w in Do(m, a).workers
    ensures w in m.workers ==> Do(m, a).workers[w] == m.workers[w]
  {
  }

  /** What the acting worker does to the lock and to its own place. */
  lemma ActorMoves(m: Machine, a: Action, r: Resource)
    ensures var m', w := Do(m, a), a.worker;
            && (Holds(m, w, r) && Holds(m', w, r) ==> LockCell(m', r) == LockCell(m, r))
            && (!Holds(m, w, r) && !Holds(m', w, r) ==> LockCell(m', r) == LockCell(m, r))
            && (!Holds(m, w, r) && Holds(m', w, r) ==>
                  && a.Go? && m.workers[w].SwapLock?
                  && LockCell(m, r) == m.workers[w].seen && Locked(m', r))
            && (Holds(m, w, r) && !Holds(m', w, r) ==> LockCell(m', r) == Some(Flag(false)))
  {
  }

  /** A pending swap was read off a free lock. */
  predicate SawFree(m: Machine) {
    forall w :: w in m.workers && m.workers[w].SwapLock? ==> FreeLock(m.workers[w].seen)
  }

  lemma SawFreeStep(m: Machine, a: Action)
    requires SawFree(m)
    ensures SawFree(Do(m, a))
  {
  }

  lemma ExclusiveStep(m: Machine, a: Action, r: Resource)
    requires SawFree(m) && Exclusive(m, r)
    ensures Exclusive(Do(m, a), r)
  {
    var m', w := Do(m, a), a.worker;
    ActorMoves(m, a, r);
    forall v | v != w
      ensures Holds(m', v, r) <==> Holds(m, v, r)
    {
      OthersStay(m, a, v, r);
    }
    if Holds(m, w, r) && Holds(m', w, r) {
      assert Locked(m', r);
    } else if !Holds(m, w, r) && Holds(m', w, r) {
      assert !Locked(m, r);
    } else if !Holds(m, w, r) && Locked(m, r) {
      var v :| Holds(m, v, r);
      assert Holds(m', v, r);
    }
  }

  /** No worker is in a critical section and every lock is free. */
  ghost predicate Quiet(m: Machine) {
    && m.workers == map[]
    && (forall r :: FreeLock(LockCell(m, r)))
  }

  lemma {:induction false} AfterKeepsExclusive(m: Machine, actions: seq<Action>, r: Resource)
    requires SawFree(m) && Exclusive(m, r)
    ensures SawFree(After(m, actions)) && Exclusive(After(m, actions), r)
    decreases |actions|
  {
    if actions != [] {
      SawFreeStep(m, actions[0]);
      ExclusiveStep(m, actions[0], r);
      AfterKeepsExclusive(Do(m, actions[0]), actions[1..], r);
    }
  }

  /** In every state reached from a quiet one, by any interleaving of any number
      of workers, each lock is held exactly while one worker is inside. */
  lemma MutualExclusion(m: Machine, actions: seq<Action>, r: Resource)
    requires Quiet(m)
    ensures Exclusive(After(m, actions), r)
  {
    assert FreeLock(LockCell(m, r));
    AfterKeepsExclusive(m, actions, r);
  }

  /** A worker goes on exactly when it reads a free lock, and then exactly when
      the lock still reads the same. Otherwise it answers that it was refused,
      and nothing else has changed. */
  lemma RefusedChangesNothing(m: Machine, w: WorkerId)
    requires w in m.workers && (m.workers[w].ReadLock? || m.workers[w].SwapLock?)
    ensures var pc, pc', lock := m.workers[w], Do(m, Go(w)).workers[w], LockCell(m, Target(m.workers[w].job));
            && (pc.ReadLock? ==> (pc' == SwapLock(pc.job, lock) <==> lock == None || lock == Some(Flag(false))))
            && (pc.SwapLock? ==> (pc' == Enter(pc.job) <==> lock == pc.seen))
            && (!pc'.SwapLock? && !Inside(pc') ==>
                  Do(m, Go(w)) == m.(workers := m.workers[w := Returned(pc.job, Refused)]))
  {
  }

  /******* No leaked lock *******/

  /** How many more accesses the worker needs to be out of its critical section. */
  function Remaining(m: Machine, w: WorkerId): nat
    requires w in m.workers && Inside(m.workers[w])
  {
    match m.workers[w]
    case Enter(Append(_)) => 3
    case Enter(Drain) =>
      var cell := Lookup(m.cells, ValueOf(ResultQueue));
      if cell.Some? && cell.value.Results? then |cell.value.items| + 3 else 2
    case Enter(_) => 2
    case Write(_, _) => 2
    case Submit(items, next) => if next < |items| then |items| - next + 2 else 2
    case Release(_, _) => 1
  }

  /** Every access of a worker inside brings it one closer to its release; it is
      never blocked. */
  lemma InsideMakesProgress(m: Machine, w: WorkerId)
    requires w in m.workers && Inside(m.workers[w])
    ensures var m' := Do(m, Go(w));
            if m.workers[w].Release? then !Inside(m'.workers[w])
            else Inside(m'.workers[w]) && Remaining(m', w) == Remaining(m, w) - 1
  {
  }

  /** Other workers cannot delay it: the cell it works on is locked. */
  lemma OthersDoNotDelay(m: Machine, a: Action, w: WorkerId)
    requires w in m.workers && Inside(m.workers[w]) && a != Go(w)
    requires Exclusive(m, Protects(m.workers[w]))
    ensures w in Do(m, a).workers && Do(m, a).workers[w] == m.workers[w]
    ensures Remaining(Do(m, a), w) == Remaining(m, w)
  {
    if a.worker != w {
      OthersStay(m, a, w, Protects(m.workers[w]));
      assert Holds(m, w, Protects(m.workers[w]));
      OnlyHoldersWrite(m, a, Protects(m.workers[w]));
    }
  }

  /** A protected cell changes only under the hands of the worker that holds its lock. */
  lemma OnlyHoldersWrite(m: Machine, a: Action, r: Resource)
    ensures !Holds(m, a.worker, r) ==> Lookup(Do(m, a).cells, ValueOf(r)) == Lookup(m.cells, ValueOf(r))
  {
  }

  function Accesses(actions: seq<Action>, w: WorkerId): nat {
    if actions == [] then 0 else (if actions[0] == Go(w) then 1 else 0) + Accesses(actions[1..], w)
  }

  /** Some prefix of the actions takes the worker out of its critical section. */
  predicate Leaves(m: Machine, actions: seq<Action>, w: WorkerId)
    decreases |actions|
  {
    || w !in m.workers || !Inside(m.workers[w])
    || (actions != [] && Leaves(Do(m, actions[0]), actions[1..], w))
  }

  /** However the other workers are scheduled, a worker inside its critical
      section releases the lock exactly with its `Remaining`th own access. */
  lemma {:induction false} HoldersRelease(m: Machine, actions: seq<Action>, w: WorkerId)
    requires w in m.workers && Inside(m.workers[w])
    requires SawFree(m) && Exclusive(m, Protects(m.workers[w]))
    ensures Leaves(m, actions, w) <==> Accesses(actions, w) >= Remaining(m, w)
    decreases |actions|
  {
    if actions != [] {
      var m', rest := Do(m, actions[0]), actions[1..];
      SawFreeStep(m, actions[0]);
      ExclusiveStep(m, actions[0], Protects(m.workers[w]));
      if actions[0] == Go(w) {
        InsideMakesProgress(m, w);
      } else {
        OthersDoNotDelay(m, actions[0], w);
      }
      if Inside(m'.workers[w]) {
        InsideKeepsTarget(m, actions[0], w);
        HoldersRelease(m', rest, w);
      }
    }
  }

  lemma InsideKeepsTarget(m: Machine, a: Action, w: WorkerId)
    requires w in m.workers && Inside(m.workers[w])
    requires w in Do(m, a).workers && Inside(Do(m, a).workers[w])
    ensures Protects(Do(m, a).workers[w]) == Protects(m.workers[w])
  {
  }

  /** A holder that makes no further access keeps its lock for ever: whatever
      the others do, the lock stays taken and the cell it protects is frozen. */
  lemma {:induction false} SilentHolderBlocks(m: Machine, actions: seq<Action>, w: WorkerId, r: Resource)
    requires SawFree(m) && Exclusive(m, r) && Holds(m, w, r)
    requires Accesses(actions, w) == 0
    ensures var m' := After(m, actions);
            && Holds(m', w, r) && Locked(m', r)
            && (forall v :: Holds(m', v, r) ==> v == w)
            && Lookup(m'.cells, ValueOf(r)) == Lookup(m.cells, ValueOf(r))
    decreases |actions|
  {
    if actions != [] {
      var a := actions[0];
      SawFreeStep(m, a);
      ExclusiveStep(m, a, r);
      OthersDoNotDelay(m, a, w);
      if a.worker != w {
        OnlyHoldersWrite(m, a, r);
      }
      SilentHolderBlocks(Do(m, a), actions[1..], w, r);
    }
  }

  /** The actions by which a worker takes the lock of a job. */
  function Acquire(w: WorkerId, job: Job): seq<Action> {
    [Start(w, job), Go(w), Go(w)]
  }

  /** Any worker can come to be such a holder: from a quiet machine it takes its
      lock in two accesses, and if it dies there the lock is lost. */
  lemma DeadWorkerKeepsLock(m: Machine, w: WorkerId, job: Job, actions: seq<Action>)
    requires Quiet(m) && Accesses(actions, w) == 0
    ensures var m' := After(After(m, Acquire(w, job)), actions);
            && Locked(m', Target(job)) && Holds(m', w, Target(job))
            && Lookup(m'.cells, ValueOf(Target(job))) == Lookup(m.cells, ValueOf(Target(job)))
  {
    var r := Target(job);
    assert FreeLock(LockCell(m, r));
    var m1 := Do(m, Start(w, job));
    var m2 := Do(m1, Go(w));
    var m3 := Do(m2, Go(w));
    assert m3.workers[w] == Enter(job);
    assert After(m, Acquire(w, job)) == After(m1, [Go(w), Go(w)]) == After(m2, [Go(w)]) == After(m3, []) == m3;
    AfterKeepsExclusive(m, Acquire(w, job), r);
    SilentHolderBlocks(m3, actions, w, r);
  }
}
