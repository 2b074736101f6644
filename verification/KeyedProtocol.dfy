/** The same workers on the store as the node has it, under string keys. Clients
    whose strings are apart share it safely; any others do not: loads, locks and
    atomicity each hold for exactly the sets of clients that are apart. */
module KeyedProtocol {
  import opened Types
  import opened LocalStorage
  import opened LockProtocol
  import opened ResultFlow
  import opened Refinement

  type Keyed = Shared<string>

  function KeyedDo(k: Keyed, a: Action): Keyed {
    match a
    case Start(w, job) => Begin(k, w, job)
    case Go(w) => if w in k.workers then AccessAt(k, w, KeyOf(Accessed(k.workers[w]))) else k
  }

  function KeyedAfter(k: Keyed, actions: seq<Action>): Keyed
    decreases |actions|
  {
    if actions == [] then k else KeyedAfter(KeyedDo(k, actions[0]), actions[1..])
  }

  function KeyedCell(k: Keyed, slot: Slot): Option<Cell> {
    Lookup(k.cells, KeyOf(slot))
  }

  predicate NamedJob(a: Action, clients: iset<string>) {
    a.Start? ==> Named(LockOf(Target(a.job)), clients)
  }

  predicate NamedJobs(actions: seq<Action>, clients: iset<string>) {
    forall i :: 0 <= i < |actions| ==> NamedJob(actions[i], clients)
  }

  /** No worker runs, and the locks of these clients are free. */
  ghost predicate KeyedQuiet(k: Keyed, clients: iset<string>) {
    k.workers == map[] && forall r :: Named(LockOf(r), clients) ==> FreeLock(KeyedCell(k, LockOf(r)))
  }

  /******* Simulation *******/

  ghost predicate Simulates(m: Machine, k: Keyed, clients: iset<string>) {
    && Mirrors(m.cells, k.cells, clients) && (forall s :: s in m.cells ==> Named(s, clients))
    && m.workers == k.workers && m.pushed == k.pushed && m.handed == k.handed && m.saves == k.saves
    && (forall w :: w in m.workers ==> Named(Accessed(m.workers[w]), clients))
  }

  /** A worker stays with the resource it started with. */
  lemma SameResource(pc: Pc, cell: Option<Cell>)
    ensures Accessed(Proceed(pc, cell)).resource == Accessed(pc).resource
  {
  }

  lemma SimulatesStep(m: Machine, k: Keyed, a: Action, clients: iset<string>)
    requires Apart(clients) && Simulates(m, k, clients) && NamedJob(a, clients)
    ensures Simulates(Do(m, a), KeyedDo(k, a), clients)
  {
    if a.Go? && a.worker in m.workers {
      var pc := m.workers[a.worker];
      var slot := Accessed(pc);
      assert Named(slot, clients);
      var cell := Lookup(m.cells, slot);
      assert cell == KeyedCell(k, slot);
      SameResource(pc, cell);
      if Written(pc, cell).Some? {
        KeysActAsSlots(m.cells, k.cells, clients, slot, Written(pc, cell).value);
      }
    }
  }

  lemma {:induction false} SimulatesAfter(m: Machine, k: Keyed, actions: seq<Action>, clients: iset<string>)
    requires Apart(clients) && Simulates(m, k, clients) && NamedJobs(actions, clients)
    ensures Simulates(After(m, actions), KeyedAfter(k, actions), clients)
    decreases |actions|
  {
    if actions != [] {
      assert NamedJob(actions[0], clients);
      SimulatesStep(m, k, actions[0], clients);
      assert forall i :: 0 <= i < |actions[1..]| ==> actions[1..][i] == actions[i + 1];
      SimulatesAfter(Do(m, actions[0]), KeyedDo(k, actions[0]), actions[1..], clients);
    }
  }

  /** The machine on separate cells that a store stands for. */
  ghost function Slotted(k: Keyed, clients: iset<string>): Machine
    requires Apart(clients)
  {
    Machine(CellsOf(k.cells, clients), k.workers, k.pushed, k.handed, k.saves)
  }

  lemma SlottedIsQuiet(k: Keyed, clients: iset<string>)
    requires Apart(clients) && KeyedQuiet(k, clients)
    ensures Simulates(Slotted(k, clients), k, clients) && Quiet(Slotted(k, clients))
  {
    var m := Slotted(k, clients);
    forall r: Resource
      ensures FreeLock(LockCell(m, r))
    {
      if Named(LockOf(r), clients) {
        assert FreeLock(KeyedCell(k, LockOf(r)));
      }
    }
  }

  /******* What holds of the store *******/

  /** The lock's key holds true exactly while one worker is inside. */
  ghost predicate KeyedExclusive(k: Keyed, r: Resource) {
    && (KeyedCell(k, LockOf(r)) == Some(Flag(true)) <==> exists w :: Holds(k, w, r))
    && (forall w, v :: Holds(k, w, r) && Holds(k, v, r) ==> w == v)
  }

  /** Mutual exclusion under string keys, for clients that are apart. */
  lemma KeyedMutualExclusion(k: Keyed, actions: seq<Action>, clients: iset<string>, r: Resource)
    requires Apart(clients) && KeyedQuiet(k, clients) && NamedJobs(actions, clients) && Named(LockOf(r), clients)
    ensures KeyedExclusive(KeyedAfter(k, actions), r)
  {
    var m := Slotted(k, clients);
    SlottedIsQuiet(k, clients);
    SimulatesAfter(m, k, actions, clients);
    MutualExclusion(m, actions, r);
    var m', k' := After(m, actions), KeyedAfter(k, actions);
    assert LockCell(m', r) == KeyedCell(k', LockOf(r));
    assert forall w :: Holds(m', w, r) <==> Holds(k', w, r);
  }

  function KeyedInfo(k: Keyed, client: string): Option<DelegateInfo> {
    InfoIn(KeyedCell(k, ValueOf(ClientRegister(client))))
  }

  /** A worker about to read the register of a client reads what the latest
      completed save for that client wrote. */
  predicate ReadsLatestSave(k: Keyed, w: WorkerId, client: string) {
    w in k.workers && k.workers[w] == Enter(Load(client)) ==>
      KeyedDo(k, Go(w)).workers[w] == Release(Load(client), Loaded(LatestSave(k.saves, client)))
  }

  lemma KeyedLoadReadsLatestSave(k: Keyed, actions: seq<Action>, clients: iset<string>, w: WorkerId, client: string)
    requires Apart(clients) && KeyedQuiet(k, clients) && NamedJobs(actions, clients) && client in clients
    requires KeyedInfo(k, client) == LatestSave(k.saves, client)
    ensures ReadsLatestSave(KeyedAfter(k, actions), w, client)
  {
    var m, k' := Slotted(k, clients), KeyedAfter(k, actions);
    SlottedIsQuiet(k, clients);
    SimulatesAfter(m, k, actions, clients);
    if w in k'.workers && k'.workers[w] == Enter(Load(client)) {
      var slot := ValueOf(ClientRegister(client));
      assert Lookup(m.cells, slot) == KeyedCell(k, slot);
      assert Lookup(After(m, actions).cells, slot) == KeyedCell(k', slot);
      LoadReadsLatestSave(m, actions, w, client);
    }
  }

  /******* Atomicity *******/

  function KeyedItems(k: Keyed): seq<Item> {
    ItemsIn(KeyedCell(k, ValueOf(ResultQueue)))
  }

  /** What the store holds for these clients, as the atomic machine has it. */
  ghost function KeyedAbstract(k: Keyed, clients: iset<string>): Atomic {
    Atomic(KeyedItems(k), DeliveredOf(k.pushed, KeyedItems(k)),
           imap c: string | c in clients && KeyedInfo(k, c).Some? :: KeyedInfo(k, c).value)
  }

  function KeyedEffective(k: Keyed, a: Action): Option<Job> {
    if a.Start? || a.worker !in k.workers then None
    else EffectAt(k.workers[a.worker], KeyedCell(k, Accessed(k.workers[a.worker])))
  }

  /** The jobs brought into effect along the actions, in order. */
  function KeyedTrace(k: Keyed, actions: seq<Action>): seq<Job>
    decreases |actions|
  {
    if actions == [] then []
    else
      var job := KeyedEffective(k, actions[0]);
      (if job.Some? then [job.value] else []) + KeyedTrace(KeyedDo(k, actions[0]), actions[1..])
  }

  ghost predicate KeyedFresh(k: Keyed, clients: iset<string>) {
    KeyedQuiet(k, clients) && k.handed == [] && k.pushed == KeyedItems(k)
  }

  lemma SimulatesAbstract(m: Machine, k: Keyed, clients: iset<string>)
    requires Simulates(m, k, clients)
    ensures Abstract(m) == KeyedAbstract(k, clients)
  {
    assert Lookup(m.cells, ValueOf(ResultQueue)) == KeyedCell(k, ValueOf(ResultQueue));
    forall c: string
      ensures Registered(m.cells, c) == if c in clients then KeyedInfo(k, c) else None
    {
      var slot := ValueOf(ClientRegister(c));
      if c in clients {
        assert Lookup(m.cells, slot) == KeyedCell(k, slot);
      } else {
        assert !Named(slot, clients);
      }
    }
  }

  lemma {:induction false} SimulatesTrace(m: Machine, k: Keyed, actions: seq<Action>, clients: iset<string>)
    requires Apart(clients) && Simulates(m, k, clients) && NamedJobs(actions, clients)
    ensures Trace(m, actions) == KeyedTrace(k, actions)
    decreases |actions|
  {
    if actions != [] {
      assert NamedJob(actions[0], clients);
      assert Effective(m, actions[0]) == KeyedEffective(k, actions[0]);
      SimulatesStep(m, k, actions[0], clients);
      assert forall i :: 0 <= i < |actions[1..]| ==> actions[1..][i] == actions[i + 1];
      SimulatesTrace(Do(m, actions[0]), KeyedDo(k, actions[0]), actions[1..], clients);
    }
  }

  /** Under string keys too, for clients that are apart, every interleaving has
      the effect of its effective jobs, each performed indivisibly. */
  lemma KeyedInterleavingsAreAtomic(k: Keyed, actions: seq<Action>, clients: iset<string>)
    requires Apart(clients) && KeyedFresh(k, clients) && NamedJobs(actions, clients)
    ensures var k' := KeyedAfter(k, actions);
            && KeyedAbstract(k', clients) == PerformAll(KeyedAbstract(k, clients), KeyedTrace(k, actions))
            && ((forall v :: !Draining(k', v)) ==> k'.handed == KeyedAbstract(k', clients).delivered)
  {
    var m := Slotted(k, clients);
    var m', k' := After(m, actions), KeyedAfter(k, actions);
    SlottedIsQuiet(k, clients);
    SimulatesAbstract(m, k, clients);
    SimulatesAfter(m, k, actions, clients);
    SimulatesTrace(m, k, actions, clients);
    SimulatesAbstract(m', k', clients);
    assert Stored(m.cells) == Abstract(m).queue == KeyedItems(k);
    InterleavingsAreAtomic(m, actions);
    assert forall v :: Draining(m', v) <==> Draining(k', v);
  }

  /******* And what does not *******/

  lemma {:induction false} KeyedAfterConcat(k: Keyed, a: seq<Action>, b: seq<Action>)
    ensures KeyedAfter(k, a + b) == KeyedAfter(KeyedAfter(k, a), b)
    decreases |a|
  {
    if a == [] {
      assert a + b == b;
    } else {
      assert (a + b)[1..] == a[1..] + b;
      KeyedAfterConcat(KeyedDo(k, a[0]), a[1..], b);
    }
  }

  lemma KeyedAfterTwo(k: Keyed, a: Action, b: Action)
    ensures KeyedAfter(k, [a, b]) == KeyedDo(KeyedDo(k, a), b)
  {
    assert [a, b][1..] == [b];
    assert KeyedAfter(KeyedDo(k, a), [b]) == KeyedAfter(KeyedDo(KeyedDo(k, a), b), [b][1..]);
  }

  /** An idle worker takes a free lock. */
  lemma AcquireTakesLock(k: Keyed, w: WorkerId, job: Job)
    requires w in k.workers ==> k.workers[w].Returned?
    requires FreeLock(KeyedCell(k, LockOf(Target(job))))
    ensures KeyedAfter(k, Acquire(w, job)) ==
            k.(cells := k.cells[KeyOf(LockOf(Target(job))) := Flag(true)], workers := k.workers[w := Enter(job)])
  {
    var k1 := KeyedDo(k, Start(w, job));
    assert k1 == k.(workers := k.workers[w := ReadLock(job)]);
    var k2 := KeyedDo(k1, Go(w));
    assert k2.workers == k.workers[w := SwapLock(job, KeyedCell(k, LockOf(Target(job))))];
    assert k2.cells == k.cells;
    KeyedAfterTwo(k1, Go(w), Go(w));
    assert Acquire(w, job)[1..] == [Go(w), Go(w)];
  }

  /** A worker inside finishes its job on a register in two accesses. */
  lemma FinishReleases(k: Keyed, w: WorkerId, job: Job)
    requires w in k.workers && k.workers[w] == Enter(job) && (job.Save? || job.Load?)
    ensures var k', lock, value := KeyedAfter(k, [Go(w), Go(w)]), KeyOf(LockOf(Target(job))), KeyOf(ValueOf(Target(job)));
            && k'.cells == (if job.Save? then k.cells[value := Info(job.info)] else k.cells)[lock := Flag(false)]
            && k'.saves == k.saves + (if job.Save? then [(job.client, job.info)] else [])
            && k'.workers.Keys == k.workers.Keys && k'.workers[w].Returned?
            && (forall v :: v in k.workers && v != w ==> k'.workers[v] == k.workers[v])
  {
    KeyedAfterTwo(k, Go(w), Go(w));
  }

  function Empty(): Keyed {
    Machine(map[], map[], [], [], [])
  }

  /** A load of one client is interrupted inside its critical section while the
      client named "lock-" plus its string saves. */
  function Interrupted(c: string, info: DelegateInfo): seq<Action> {
    Acquire(0, Load(c)) + (Acquire(1, Save("lock-" + c, info)) + [Go(1), Go(1)])
  }

  /** Then the load goes on to its end, and that client loads. */
  function Clash(c: string, info: DelegateInfo): seq<Action> {
    Interrupted(c, info) + ([Go(0), Go(0)] + Acquire(1, Load("lock-" + c)))
  }

  /** The client's lock and the other client's value lie under one key, the other
      client's lock under another. */
  lemma ClashingKeys(c: string)
    ensures KeyOf(LockOf(ClientRegister(c))) == KeyOf(ValueOf(ClientRegister("lock-" + c)))
    ensures KeyOf(LockOf(ClientRegister(c))) != KeyOf(LockOf(ClientRegister("lock-" + c)))
  {
    KeysCoincideOnly(LockOf(ClientRegister(c)), ValueOf(ClientRegister("lock-" + c)));
    KeysCoincideOnly(LockOf(ClientRegister(c)), LockOf(ClientRegister("lock-" + c)));
  }

  /** The save goes through and wipes out the held lock. */
  lemma ClashSaves(c: string, x: string, info: DelegateInfo) returns (k: Keyed)
    requires x == "lock-" + c
    ensures k == KeyedAfter(Empty(), Interrupted(c, info))
    ensures k.workers.Keys == {0, 1} && k.workers[0] == Enter(Load(c)) && k.workers[1].Returned?
    ensures KeyedCell(k, LockOf(ClientRegister(c))) == Some(Info(info))
    ensures KeyedCell(k, LockOf(ClientRegister(x))) == Some(Flag(false)) && k.saves == [(x, info)]
  {
    ClashingKeys(c);
    var first, second, third := Acquire(0, Load(c)), Acquire(1, Save(x, info)), [Go(1), Go(1)];
    var k1 := KeyedAfter(Empty(), first);
    var k2 := KeyedAfter(k1, second);
    k := KeyedAfter(k2, third);
    AcquireTakesLock(Empty(), 0, Load(c));
    AcquireTakesLock(k1, 1, Save(x, info));
    FinishReleases(k2, 1, Save(x, info));
    KeyedAfterConcat(Empty(), first, second + third);
    KeyedAfterConcat(k1, second, third);
  }

  /** Once the release has overwritten the save, a load of it reads nothing. */
  lemma ReleaseHidesSave(k: Keyed, k': Keyed, c: string, x: string, info: DelegateInfo)
    requires x == "lock-" + c && k.saves == [(x, info)]
    requires KeyedCell(k, LockOf(ClientRegister(c))) == Some(Flag(false))
    requires k' == k.(cells := k.cells[KeyOf(LockOf(ClientRegister(x))) := Flag(true)], workers := k.workers[1 := Enter(Load(x))])
    ensures k'.workers[1] == Enter(Load(x)) && LatestSave(k'.saves, x) == Some(info) && !ReadsLatestSave(k', 1, x)
  {
    ClashingKeys(c);
    assert KeyedCell(k', ValueOf(ClientRegister(x))) == Some(Flag(false));
  }

  /** The save and the lock share a key: the save wipes out the held lock, and
      the release wipes out the save, which the load then cannot read. */
  lemma ClashLosesSave(c: string, info: DelegateInfo)
    ensures var k := KeyedAfter(Empty(), Clash(c, info));
            && 1 in k.workers && k.workers[1] == Enter(Load("lock-" + c))
            && LatestSave(k.saves, "lock-" + c) == Some(info)
            && !ReadsLatestSave(k, 1, "lock-" + c)
  {
    var x := "lock-" + c;
    var finish, reload := [Go(0), Go(0)], Acquire(1, Load(x));
    var k1 := ClashSaves(c, x, info);
    var k2 := KeyedAfter(k1, finish);
    FinishReleases(k1, 0, Load(c));
    ClashingKeys(c);
    AcquireTakesLock(k2, 1, Load(x));
    ReleaseHidesSave(k2, KeyedAfter(k2, reload), c, x, info);
    KeyedAfterConcat(Empty(), Interrupted(c, info), finish + reload);
    KeyedAfterConcat(k1, finish, reload);
  }

  /******* Exactly when *******/

  /** Every load of these clients, on every run over their jobs, reads the
      latest completed save. */
  ghost predicate LoadsAreExact(clients: iset<string>) {
    forall k: Keyed, actions: seq<Action>, w: WorkerId, c: string ::
      KeyedQuiet(k, clients) && NamedJobs(actions, clients) && c in clients && KeyedInfo(k, c) == LatestSave(k.saves, c) ==>
        ReadsLatestSave(KeyedAfter(k, actions), w, c)
  }

  /** The register is exact for exactly the sets of clients that are apart. */
  lemma LoadsAreExactIffApart(clients: iset<string>)
    ensures LoadsAreExact(clients) <==> Apart(clients)
  {
    if Apart(clients) {
      forall k: Keyed, actions: seq<Action>, w: WorkerId, c: string |
        KeyedQuiet(k, clients) && NamedJobs(actions, clients) && c in clients && KeyedInfo(k, c) == LatestSave(k.saves, c)
        ensures ReadsLatestSave(KeyedAfter(k, actions), w, c)
      {
        KeyedLoadReadsLatestSave(k, actions, clients, w, c);
      }
    } else {
      var c :| c in clients && "lock-" + c in clients;
      var info := DelegateInfo([], [], [], "");
      ClashLosesSave(c, info);
      assert NamedJobs(Clash(c, info), clients);
      assert KeyedQuiet(Empty(), clients);
      assert KeyedInfo(Empty(), "lock-" + c) == LatestSave(Empty().saves, "lock-" + c);
    }
  }

  /** On every run over jobs of these clients, every lock is held exactly while
      one worker is inside. */
  ghost predicate LocksAreExclusive(clients: iset<string>) {
    forall k: Keyed, actions: seq<Action>, r: Resource ::
      KeyedQuiet(k, clients) && NamedJobs(actions, clients) && Named(LockOf(r), clients) ==>
        KeyedExclusive(KeyedAfter(k, actions), r)
  }

  lemma LocksAreExclusiveIffApart(clients: iset<string>)
    ensures LocksAreExclusive(clients) <==> Apart(clients)
  {
    if Apart(clients) {
      forall k: Keyed, actions: seq<Action>, r: Resource |
        KeyedQuiet(k, clients) && NamedJobs(actions, clients) && Named(LockOf(r), clients)
        ensures KeyedExclusive(KeyedAfter(k, actions), r)
      {
        KeyedMutualExclusion(k, actions, clients, r);
      }
    } else {
      var c :| c in clients && "lock-" + c in clients;
      var info := DelegateInfo([], [], [], "");
      var k := ClashSaves(c, "lock-" + c, info);
      assert Holds(k, 0, ClientRegister(c));
      InterruptedIsNamed(c, info, clients);
      assert KeyedQuiet(Empty(), clients);
      assert !KeyedExclusive(KeyedAfter(Empty(), Interrupted(c, info)), ClientRegister(c));
    }
  }

  /** Every run over jobs of these clients has the effect of its effective jobs. */
  ghost predicate RunsAreAtomic(clients: iset<string>) {
    forall k: Keyed, actions: seq<Action> :: KeyedFresh(k, clients) && NamedJobs(actions, clients) ==>
      KeyedAbstract(KeyedAfter(k, actions), clients) == PerformAll(KeyedAbstract(k, clients), KeyedTrace(k, actions))
  }

  lemma {:induction false} KeyedTraceExtends(k: Keyed, actions: seq<Action>, a: Action)
    ensures KeyedAfter(k, actions + [a]) == KeyedDo(KeyedAfter(k, actions), a)
    ensures KeyedEffective(KeyedAfter(k, actions), a).None? ==> KeyedTrace(k, actions + [a]) == KeyedTrace(k, actions)
    decreases |actions|
  {
    if actions == [] {
      assert actions + [a] == [a] && [a][1..] == [];
    } else {
      assert (actions + [a])[1..] == actions[1..] + [a];
      KeyedTraceExtends(KeyedDo(k, actions[0]), actions[1..], a);
    }
  }

  /** The release of the interrupted load has no effect of its own, yet it takes
      the saved information away. */
  lemma ReleaseIsNotAtomic(c: string, info: DelegateInfo, clients: iset<string>)
    requires "lock-" + c in clients
    ensures var before := Interrupted(c, info) + [Go(0)];
            var k, k' := KeyedAfter(Empty(), before), KeyedAfter(Empty(), before + [Go(0)]);
            && KeyedTrace(Empty(), before + [Go(0)]) == KeyedTrace(Empty(), before)
            && KeyedAbstract(k, clients) != KeyedAbstract(k', clients)
  {
    var x := "lock-" + c;
    var k0 := ClashSaves(c, x, info);
    ClashingKeys(c);
    KeyedTraceExtends(Empty(), Interrupted(c, info), Go(0));
    KeyedTraceExtends(Empty(), Interrupted(c, info) + [Go(0)], Go(0));
    var k := KeyedDo(k0, Go(0));
    assert k.workers[0].Release? && k.workers[0].job == Load(c) && k.cells == k0.cells;
    assert KeyedInfo(k, x) == Some(info);
    assert KeyedInfo(KeyedDo(k, Go(0)), x) == None;
    assert x in KeyedAbstract(k, clients).infos && x !in KeyedAbstract(KeyedDo(k, Go(0)), clients).infos;
  }

  lemma InterruptedIsNamed(c: string, info: DelegateInfo, clients: iset<string>)
    requires c in clients && "lock-" + c in clients
    ensures NamedJobs(Interrupted(c, info), clients)
    ensures NamedJobs(Interrupted(c, info) + [Go(0)], clients) && NamedJobs(Interrupted(c, info) + [Go(0)] + [Go(0)], clients)
  {
  }

  /** Two runs with the same effective jobs end with the same contents, if atomic. */
  lemma NotAtomic(k: Keyed, a: seq<Action>, b: seq<Action>, clients: iset<string>)
    requires KeyedFresh(k, clients) && NamedJobs(a, clients) && NamedJobs(b, clients)
    requires KeyedTrace(k, a) == KeyedTrace(k, b)
    requires KeyedAbstract(KeyedAfter(k, a), clients) != KeyedAbstract(KeyedAfter(k, b), clients)
    ensures !RunsAreAtomic(clients)
  {
  }

  lemma RunsAreAtomicIffApart(clients: iset<string>)
    ensures RunsAreAtomic(clients) <==> Apart(clients)
  {
    if Apart(clients) {
      forall k: Keyed, actions: seq<Action> | KeyedFresh(k, clients) && NamedJobs(actions, clients)
        ensures KeyedAbstract(KeyedAfter(k, actions), clients) == PerformAll(KeyedAbstract(k, clients), KeyedTrace(k, actions))
      {
        KeyedInterleavingsAreAtomic(k, actions, clients);
      }
    } else {
      var c :| c in clients && "lock-" + c in clients;
      var info := DelegateInfo([], [], [], "");
      var before := Interrupted(c, info) + [Go(0)];
      ReleaseIsNotAtomic(c, info, clients);
      InterruptedIsNamed(c, info, clients);
      assert KeyedFresh(Empty(), clients);
      NotAtomic(Empty(), before, before + [Go(0)], clients);
    }
  }
}
