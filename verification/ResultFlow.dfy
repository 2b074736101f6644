/** What the locks buy: results flow through the shared queue exactly once and in
    order, a load reads the latest completed save, and the interleaved workers
    refine a machine that runs each job in one step. */
module ResultFlow {
  import opened Types
  import opened LocalStorage
  import opened LockProtocol

  /******* The result queue *******/

  /** The pushed results that are no longer stored. */
  function DeliveredOf(pushed: seq<Item>, stored: seq<Item>): seq<Item> {
    if |stored| <= |pushed| then pushed[..|pushed| - |stored|] else []
  }

  function Delivered(m: Machine): seq<Item> {
    DeliveredOf(m.pushed, Stored(m.cells))
  }

  /** What a worker in the middle of a queue job knows. */
  predicate Consistent(m: Machine, pc: Pc) {
    match pc
    case Write(item, items) => items == Stored(m.cells) + [item]
    case Submit(items, next) =>
      && Lookup(m.cells, ValueOf(ResultQueue)) == Some(Results(items))
      && next <= |items|
      && m.handed == Delivered(m) + items[..next]
    case _ => true
  }

  predicate Draining<K>(m: Shared<K>, w: WorkerId) {
    w in m.workers && m.workers[w].Submit?
  }

  ghost predicate QueueOk(m: Machine) {
    && m.pushed == Delivered(m) + Stored(m.cells)
    && (forall w :: w in m.workers ==> Consistent(m, m.workers[w]))
    && ((forall w :: !Draining(m, w)) ==> m.handed == Delivered(m))
  }

  predicate OnQueue(m: Machine, w: WorkerId) {
    Holds(m, w, ResultQueue)
  }

  /** Actions of a worker that does not hold the queue's lock leave it alone. */
  lemma BystanderKeepsQueue(m: Machine, a: Action)
    requires !OnQueue(m, a.worker)
    ensures var m' := Do(m, a);
            && Stored(m'.cells) == Stored(m.cells) && m'.pushed == m.pushed && m'.handed == m.handed
            && Lookup(m'.cells, ValueOf(ResultQueue)) == Lookup(m.cells, ValueOf(ResultQueue))
            && !Draining(m', a.worker) && !Draining(m, a.worker)
            && (a.worker in m'.workers ==> !m'.workers[a.worker].Write?)
  {
  }

  lemma QueueStep(m: Machine, a: Action)
    requires QueueOk(m) && Exclusive(m, ResultQueue)
    ensures QueueOk(Do(m, a))
  {
    var m', w := Do(m, a), a.worker;
    forall v | v != w
      ensures v in m.workers <==> v in m'.workers
      ensures v in m.workers ==> m'.workers[v] == m.workers[v]
      ensures Draining(m', v) <==> Draining(m, v)
    {
      OthersStay(m, a, v, ResultQueue);
    }
    if !OnQueue(m, w) {
      BystanderKeepsQueue(m, a);
    } else {
      assert forall v :: v != w ==> !Holds(m, v, ResultQueue);
      HolderStep(m, a);
    }
  }

  /** The one worker on the queue keeps its books. */
  lemma HolderStep(m: Machine, a: Action)
    requires QueueOk(m) && OnQueue(m, a.worker)
    requires forall v :: v != a.worker ==> !Holds(m, v, ResultQueue)
    requires forall v :: v != a.worker && v in m.workers ==> v in Do(m, a).workers && Do(m, a).workers[v] == m.workers[v]
    requires forall v :: v != a.worker && v !in m.workers ==> v !in Do(m, a).workers
    ensures QueueOk(Do(m, a))
  {
    var m', w := Do(m, a), a.worker;
    forall v | v != w
      ensures !Draining(m, v) && !Draining(m', v)
      ensures v in m'.workers ==> Consistent(m', m'.workers[v])
    {
      assert !Holds(m, v, ResultQueue);
    }
    assert Consistent(m, m.workers[w]);
    if a.Go? {
      HolderKeepsBooks(m, w);
    }
    assert Draining(m', w) <==> exists v :: Draining(m', v);
  }

  /** What was pushed is accounted for, by a worker at this place. */
  predicate Books(m: Machine, pc: Pc) {
    && m.pushed == Delivered(m) + Stored(m.cells)
    && Consistent(m, pc)
    && (!pc.Submit? ==> m.handed == Delivered(m))
  }

  lemma WriteKeepsBooks(m: Machine, w: WorkerId)
    requires w in m.workers && m.workers[w].Write? && Books(m, m.workers[w])
    ensures var m' := Do(m, Go(w)); w in m'.workers && Books(m', m'.workers[w])
  {
  }

  lemma SubmitKeepsBooks(m: Machine, w: WorkerId)
    requires w in m.workers && m.workers[w].Submit? && Books(m, m.workers[w])
    ensures var m' := Do(m, Go(w)); w in m'.workers && Books(m', m'.workers[w])
  {
    var m', items, next := Do(m, Go(w)), m.workers[w].items, m.workers[w].next;
    if next < |items| {
      assert items[..next + 1] == items[..next] + [items[next]];
    } else {
      assert items[..next] == items;
      assert Delivered(m') == m.pushed;
    }
  }

  lemma HolderKeepsBooks(m: Machine, w: WorkerId)
    requires OnQueue(m, w) && Books(m, m.workers[w])
    ensures var m' := Do(m, Go(w)); w in m'.workers && Books(m', m'.workers[w])
  {
    if m.workers[w].Write? {
      WriteKeepsBooks(m, w);
    } else if m.workers[w].Submit? {
      SubmitKeepsBooks(m, w);
    }
  }

  /** Nothing handed over yet, and everything stored counts as pushed. */
  ghost predicate Fresh(m: Machine) {
    Quiet(m) && m.handed == [] && m.pushed == Stored(m.cells)
  }

  lemma {:induction false} AfterKeepsQueue(m: Machine, actions: seq<Action>)
    requires SawFree(m) && Exclusive(m, ResultQueue) && QueueOk(m)
    ensures QueueOk(After(m, actions))
    decreases |actions|
  {
    if actions != [] {
      SawFreeStep(m, actions[0]);
      ExclusiveStep(m, actions[0], ResultQueue);
      QueueStep(m, actions[0]);
      AfterKeepsQueue(Do(m, actions[0]), actions[1..]);
    }
  }

  /** Exactly once, in order: under every interleaving, what was pushed is what
      was handed over followed by what is stored, unless a drain is under way;
      then the stored list begins with the part of it already handed over. */
  lemma ExactlyOnceInOrder(m0: Machine, actions: seq<Action>, w: WorkerId)
    requires Fresh(m0)
    ensures var m := After(m0, actions);
            && ((forall v :: !Draining(m, v)) ==> m.pushed == m.handed + Stored(m.cells))
            && (Draining(m, w) ==>
                  var next := m.workers[w].next;
                  && next <= |Stored(m.cells)| && next <= |m.handed|
                  && m.handed[|m.handed| - next..] == Stored(m.cells)[..next]
                  && m.pushed == m.handed + Stored(m.cells)[next..])
  {
    assert FreeLock(LockCell(m0, ResultQueue));
    assert m0.pushed == [] + Stored(m0.cells);
    AfterKeepsQueue(m0, actions);
    if Draining(After(m0, actions), w) {
      DrainUnderWay(After(m0, actions), w);
    }
  }

  lemma DrainUnderWay(m: Machine, w: WorkerId)
    requires QueueOk(m) && Draining(m, w)
    ensures var next := m.workers[w].next;
            && next <= |Stored(m.cells)| && next <= |m.handed|
            && m.handed[|m.handed| - next..] == Stored(m.cells)[..next]
            && m.pushed == m.handed + Stored(m.cells)[next..]
  {
  }

  /******* The per-client register *******/

  function LatestSave(saves: seq<(string, DelegateInfo)>, client: string): Option<DelegateInfo> {
    if saves == [] then None
    else
      var (c, info) := saves[|saves| - 1];
      if c == client then Some(info) else LatestSave(saves[..|saves| - 1], client)
  }

  predicate Saving(pc: Pc, client: string) {
    pc.Release? && pc.job.Save? && pc.job.client == client
  }

  /** The cell holds the latest completed save, or the one being completed. */
  ghost predicate RegisterOk(m: Machine, client: string) {
    && (forall w :: w in m.workers && Saving(m.workers[w], client) ==>
          Registered(m.cells, client) == Some(m.workers[w].job.info))
    && ((forall w :: w in m.workers ==> !Saving(m.workers[w], client)) ==>
          Registered(m.cells, client) == LatestSave(m.saves, client))
  }

  lemma SavesStep(m: Machine, a: Action, client: string)
    ensures LatestSave(Do(m, a).saves, client) ==
            if a.Go? && a.worker in m.workers && Saving(m.workers[a.worker], client)
            then Some(m.workers[a.worker].job.info)
            else LatestSave(m.saves, client)
  {
    if a.Go? && a.worker in m.workers && m.workers[a.worker].Release? && m.workers[a.worker].job.Save? {
      var saves' := Do(m, a).saves;
      assert saves'[..|saves'| - 1] == m.saves;
    } else {
      assert Do(m, a).saves == m.saves;
    }
  }

  /** A worker without the register's lock neither starts nor ends a save. */
  lemma RegisterBystander(m: Machine, a: Action, client: string)
    requires !Holds(m, a.worker, ClientRegister(client))
    ensures var m', w := Do(m, a), a.worker;
            && (w in m.workers ==> !Saving(m.workers[w], client))
            && (w in m'.workers ==> !Saving(m'.workers[w], client))
            && Registered(m'.cells, client) == Registered(m.cells, client)
            && LatestSave(m'.saves, client) == LatestSave(m.saves, client)
  {
    SavesStep(m, a, client);
    OnlyHoldersWrite(m, a, ClientRegister(client));
  }

  lemma RegisterStep(m: Machine, a: Action, client: string)
    requires RegisterOk(m, client) && Exclusive(m, ClientRegister(client))
    ensures RegisterOk(Do(m, a), client)
  {
    var m', w, r := Do(m, a), a.worker, ClientRegister(client);
    forall v | v != w
      ensures v in m.workers <==> v in m'.workers
      ensures v in m.workers ==> m'.workers[v] == m.workers[v]
      ensures v in m.workers && Saving(m.workers[v], client) ==> Holds(m, v, r)
    {
      OthersStay(m, a, v, r);
    }
    if Holds(m, w, r) {
      assert forall v :: v != w && v in m'.workers ==> !Saving(m'.workers[v], client);
      SavesStep(m, a, client);
      RegisterHolder(m, a, client);
    } else {
      RegisterBystander(m, a, client);
    }
  }

  lemma RegisterHolder(m: Machine, a: Action, client: string)
    requires Holds(m, a.worker, ClientRegister(client))
    ensures var m', w := Do(m, a), a.worker;
            && w in m'.workers
            && (Saving(m'.workers[w], client) ==>
                  || Registered(m'.cells, client) == Some(m'.workers[w].job.info)
                  || (Saving(m.workers[w], client) && m' == m))
            && (!Saving(m'.workers[w], client) ==> Registered(m'.cells, client) == Registered(m.cells, client))
  {
  }

  lemma {:induction false} AfterKeepsRegister(m: Machine, actions: seq<Action>, client: string)
    requires SawFree(m) && Exclusive(m, ClientRegister(client)) && RegisterOk(m, client)
    ensures RegisterOk(After(m, actions), client)
    decreases |actions|
  {
    if actions != [] {
      SawFreeStep(m, actions[0]);
      ExclusiveStep(m, actions[0], ClientRegister(client));
      RegisterStep(m, actions[0], client);
      AfterKeepsRegister(Do(m, actions[0]), actions[1..], client);
    }
  }

  /** Under every interleaving, a load of a client reads what the latest
      completed save for that client wrote, whatever happens to other clients. */
  lemma LoadReadsLatestSave(m0: Machine, actions: seq<Action>, w: WorkerId, client: string)
    requires Quiet(m0) && Registered(m0.cells, client) == LatestSave(m0.saves, client)
    requires var m := After(m0, actions); w in m.workers && m.workers[w] == Enter(Load(client))
    ensures var m := After(m0, actions);
            Do(m, Go(w)).workers[w] == Release(Load(client), Loaded(LatestSave(m.saves, client)))
  {
    var m, r := After(m0, actions), ClientRegister(client);
    assert FreeLock(LockCell(m0, r));
    AfterKeepsExclusive(m0, actions, r);
    AfterKeepsRegister(m0, actions, client);
    assert Holds(m, w, r);
    forall v | v in m.workers
      ensures !Saving(m.workers[v], client)
    {
      if Saving(m.workers[v], client) {
        assert Holds(m, v, r);
      }
    }
  }
}
