/** The result queue under string keys. Its two keys are nobody else's, so it is
    safe whatever the clients are called, even where their own cells clash. */
module KeyedQueue {
  import opened Types
  import opened LocalStorage
  import opened LockProtocol
  import opened ResultFlow
  import opened KeyedProtocol

  predicate OnQueueJob(pc: Pc) {
    Accessed(pc).resource == ResultQueue
  }

  function CellUnder(store: map<string, Cell>, s: Slot): Cells {
    if KeyOf(s) in store then map[s := store[KeyOf(s)]] else map[]
  }

  function QueueCells(store: map<string, Cell>): Cells {
    CellUnder(store, ValueOf(ResultQueue)) + CellUnder(store, LockOf(ResultQueue))
  }

  /** The part of a keyed machine that has to do with the queue. */
  function QueueSide(k: Keyed): Machine {
    Machine(QueueCells(k.cells), map w | w in k.workers && OnQueueJob(k.workers[w]) :: k.workers[w],
            k.pushed, k.handed, [])
  }

  lemma QueueKeys(s: Slot)
    ensures KeyOf(ValueOf(ResultQueue)) != KeyOf(LockOf(ResultQueue))
    ensures s.resource != ResultQueue ==> KeyOf(s) != KeyOf(ValueOf(ResultQueue)) && KeyOf(s) != KeyOf(LockOf(ResultQueue))
  {
    KeysCoincideOnly(ValueOf(ResultQueue), LockOf(ResultQueue));
    if s.resource != ResultQueue {
      KeysCoincideOnly(s, ValueOf(ResultQueue));
      KeysCoincideOnly(s, LockOf(ResultQueue));
    }
  }

  lemma QueueCellsRead(store: map<string, Cell>, s: Slot)
    requires s.resource == ResultQueue
    ensures Lookup(QueueCells(store), s) == Lookup(store, KeyOf(s))
  {
  }

  lemma QueueCellsWrite(store: map<string, Cell>, s: Slot, v: Cell)
    ensures QueueCells(store[KeyOf(s) := v]) ==
            if s.resource == ResultQueue then QueueCells(store)[s := v] else QueueCells(store)
  {
    QueueKeys(s);
  }

  /** What the locks keep of the queue. */
  ghost predicate QueueSafe(m: Machine) {
    SawFree(m) && Exclusive(m, ResultQueue) && QueueOk(m)
  }

  lemma QueueSafeStep(m: Machine, a: Action)
    requires QueueSafe(m)
    ensures QueueSafe(Do(m, a))
  {
    SawFreeStep(m, a);
    ExclusiveStep(m, a, ResultQueue);
    QueueStep(m, a);
  }

  /** A worker that has returned can be forgotten. */
  lemma ForgetReturned(m: Machine, w: WorkerId)
    requires QueueSafe(m) && (w in m.workers ==> m.workers[w].Returned?)
    ensures QueueSafe(m.(workers := m.workers - {w}))
  {
    var m' := m.(workers := m.workers - {w});
    forall v
      ensures Holds(m', v, ResultQueue) <==> Holds(m, v, ResultQueue)
      ensures Draining(m', v) <==> Draining(m, v)
    {
    }
  }

  /** An access of a queue job is that access of the queue's side. */
  lemma QueueAccess(k: Keyed, w: WorkerId)
    requires w in k.workers && OnQueueJob(k.workers[w])
    ensures QueueSide(KeyedDo(k, Go(w))) == Do(QueueSide(k), Go(w))
  {
    var pc := k.workers[w];
    var slot := Accessed(pc);
    var cell := KeyedCell(k, slot);
    QueueCellsRead(k.cells, slot);
    SameResource(pc, cell);
    if Written(pc, cell).Some? {
      QueueCellsWrite(k.cells, slot, Written(pc, cell).value);
    }
    assert QueueSide(KeyedDo(k, Go(w))).workers == Do(QueueSide(k), Go(w)).workers;
  }

  /** An access of a register job does not touch it. */
  lemma RegisterAccess(k: Keyed, w: WorkerId)
    requires w in k.workers && !OnQueueJob(k.workers[w])
    ensures QueueSide(KeyedDo(k, Go(w))) == QueueSide(k)
  {
    var pc := k.workers[w];
    var slot := Accessed(pc);
    var cell := KeyedCell(k, slot);
    SameResource(pc, cell);
    if Written(pc, cell).Some? {
      QueueCellsWrite(k.cells, slot, Written(pc, cell).value);
    }
    assert QueueSide(KeyedDo(k, Go(w))).workers == QueueSide(k).workers;
  }

  /** An idle worker that starts a job appears on the queue's side or leaves it. */
  lemma StartSide(k: Keyed, w: WorkerId, job: Job)
    requires w in k.workers ==> k.workers[w].Returned?
    ensures QueueSide(KeyedDo(k, Start(w, job))) ==
            if Target(job) == ResultQueue then Do(QueueSide(k), Start(w, job))
            else QueueSide(k).(workers := QueueSide(k).workers - {w})
  {
    assert QueueSide(KeyedDo(k, Start(w, job))).workers ==
           if Target(job) == ResultQueue then QueueSide(k).workers[w := ReadLock(job)] else QueueSide(k).workers - {w};
  }

  lemma StartSafe(k: Keyed, w: WorkerId, job: Job)
    requires QueueSafe(QueueSide(k))
    ensures QueueSafe(QueueSide(KeyedDo(k, Start(w, job))))
  {
    if w !in k.workers || k.workers[w].Returned? {
      StartSide(k, w, job);
      if Target(job) == ResultQueue {
        QueueSafeStep(QueueSide(k), Start(w, job));
      } else {
        ForgetReturned(QueueSide(k), w);
      }
    }
  }

  lemma KeyedQueueStep(k: Keyed, a: Action)
    requires QueueSafe(QueueSide(k))
    ensures QueueSafe(QueueSide(KeyedDo(k, a)))
  {
    match a
    case Start(w, job) => StartSafe(k, w, job);
    case Go(w) =>
      if w in k.workers {
        if OnQueueJob(k.workers[w]) {
          QueueAccess(k, w);
          QueueSafeStep(QueueSide(k), a);
        } else {
          RegisterAccess(k, w);
        }
      }
  }

  lemma {:induction false} KeyedQueueAfter(k: Keyed, actions: seq<Action>)
    requires QueueSafe(QueueSide(k))
    ensures QueueSafe(QueueSide(KeyedAfter(k, actions)))
    decreases |actions|
  {
    if actions != [] {
      KeyedQueueStep(k, actions[0]);
      KeyedQueueAfter(KeyedDo(k, actions[0]), actions[1..]);
    }
  }

  /** No worker runs, the queue's lock is free, nothing was handed over yet, and
      everything stored counts as pushed. */
  predicate QueueFresh(k: Keyed) {
    && k.workers == map[] && k.handed == [] && k.pushed == KeyedItems(k)
    && FreeLock(KeyedCell(k, LockOf(ResultQueue)))
  }

  /** Exactly once and in order under string keys, for any clients: what was
      pushed is what was handed over followed by what is stored, unless a drain
      is under way; then the stored list begins with the part handed over. */
  lemma KeyedExactlyOnce(k: Keyed, actions: seq<Action>, w: WorkerId)
    requires QueueFresh(k)
    ensures var k' := KeyedAfter(k, actions);
            && KeyedExclusive(k', ResultQueue)
            && ((forall v :: !Draining(k', v)) ==> k'.pushed == k'.handed + KeyedItems(k'))
            && (Draining(k', w) ==>
                  var next := k'.workers[w].next;
                  && next <= |KeyedItems(k')| && next <= |k'.handed|
                  && k'.handed[|k'.handed| - next..] == KeyedItems(k')[..next]
                  && k'.pushed == k'.handed + KeyedItems(k')[next..])
  {
    FreshIsSafe(k);
    KeyedQueueAfter(k, actions);
    SafeMeansExactlyOnce(KeyedAfter(k, actions), w);
  }

  lemma SafeMeansExactlyOnce(k: Keyed, w: WorkerId)
    requires QueueSafe(QueueSide(k))
    ensures KeyedExclusive(k, ResultQueue)
    ensures (forall v :: !Draining(k, v)) ==> k.pushed == k.handed + KeyedItems(k)
    ensures Draining(k, w) ==>
              var next := k.workers[w].next;
              && next <= |KeyedItems(k)| && next <= |k.handed|
              && k.handed[|k.handed| - next..] == KeyedItems(k)[..next]
              && k.pushed == k.handed + KeyedItems(k)[next..]
  {
    SidesAgree(k);
    if Draining(k, w) {
      DrainUnderWay(QueueSide(k), w);
    }
  }

  lemma FreshIsSafe(k: Keyed)
    requires QueueFresh(k)
    ensures QueueSafe(QueueSide(k))
  {
    QueueCellsRead(k.cells, ValueOf(ResultQueue));
    QueueCellsRead(k.cells, LockOf(ResultQueue));
    assert k.pushed == [] + KeyedItems(k);
  }

  lemma SidesAgree(k: Keyed)
    ensures var m := QueueSide(k);
            && Stored(m.cells) == KeyedItems(k) && LockCell(m, ResultQueue) == KeyedCell(k, LockOf(ResultQueue))
            && (forall w :: Holds(m, w, ResultQueue) <==> Holds(k, w, ResultQueue))
            && (forall w :: Draining(m, w) <==> Draining(k, w))
  {
    QueueCellsRead(k.cells, ValueOf(ResultQueue));
    QueueCellsRead(k.cells, LockOf(ResultQueue));
  }
}
