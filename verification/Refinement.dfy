/** The interleaved workers refine a machine in which every job that succeeds is
    one indivisible step and every refused acquire is none. */
module Refinement {
  import opened Types
  import opened LocalStorage
  import opened LockProtocol
  import opened ResultFlow

  /** The stored results, the results delivered, and what is registered. */
  datatype Atomic = Atomic(queue: seq<Item>, delivered: seq<Item>, infos: imap<string, DelegateInfo>)

  ghost function Perform(a: Atomic, job: Job): Atomic {
    match job
    case Append(item) => a.(queue := a.queue + [item])
    case Drain => a.(queue := [], delivered := a.delivered + a.queue)
    case Save(c, info) => a.(infos := a.infos[c := info])
    case Load(_) => a
  }

  ghost function ReplyTo(a: Atomic, job: Job): Reply {
    if job.Load? then Loaded(if job.client in a.infos then Some(a.infos[job.client]) else None) else Performed
  }

  ghost function Infos(cells: Cells): imap<string, DelegateInfo> {
    imap c: string | Registered(cells, c).Some? :: Registered(cells, c).value
  }

  ghost function View(cells: Cells, delivered: seq<Item>): Atomic {
    Atomic(Stored(cells), delivered, Infos(cells))
  }

  ghost function Abstract(m: Machine): Atomic {
    View(m.cells, Delivered(m))
  }

  /** The job that a worker's next access brings into effect, if any, given what
      it finds in the cell: the access after which the worker only has its lock
      to release. */
  function EffectAt(pc: Pc, cell: Option<Cell>): Option<Job> {
    match pc
    case Enter(Save(c, info)) => Some(Save(c, info))
    case Enter(Load(c)) => Some(Load(c))
    case Enter(Drain) => if cell.Some? && cell.value.Results? then None else Some(Drain)
    case Write(item, _) => Some(Append(item))
    case Submit(items, next) => if next < |items| then None else Some(Drain)
    case _ => None
  }

  function Effective(m: Machine, a: Action): Option<Job> {
    if a.Start? || a.worker !in m.workers then None
    else EffectAt(m.workers[a.worker], Lookup(m.cells, Accessed(m.workers[a.worker])))
  }

  /** The jobs brought into effect along the actions, in order. */
  function Trace(m: Machine, actions: seq<Action>): seq<Job>
    decreases |actions|
  {
    if actions == [] then []
    else
      var job := Effective(m, actions[0]);
      (if job.Some? then [job.value] else []) + Trace(Do(m, actions[0]), actions[1..])
  }

  ghost function PerformAll(a: Atomic, jobs: seq<Job>): Atomic
    decreases |jobs|
  {
    if jobs == [] then a else PerformAll(Perform(a, jobs[0]), jobs[1..])
  }

  /** The effective access is the one that leads to the release, and it carries
      the reply the indivisible job would give. */
  lemma EffectiveLeadsToRelease(m: Machine, a: Action)
    requires a.worker in m.workers
    ensures var m', job := Do(m, a), Effective(m, a);
            && (job.Some? ==>
                  && Inside(m.workers[a.worker]) && !m.workers[a.worker].Release?
                  && m'.workers[a.worker] == Release(job.value, ReplyTo(Abstract(m), job.value)))
            && (job.None? && m'.workers[a.worker].Release? ==> m'.workers[a.worker] == m.workers[a.worker])
  {
  }

  /** Actions without effect keep every protected cell and the record. */
  lemma IneffectiveStep(m: Machine, a: Action)
    requires Effective(m, a).None?
    ensures Do(m, a).pushed == m.pushed
    ensures forall r :: Lookup(Do(m, a).cells, ValueOf(r)) == Lookup(m.cells, ValueOf(r))
  {
  }

  /** Queue jobs leave the registers alone and register jobs the queue. */
  lemma JobsKeepToTheirCells(m: Machine, a: Action, client: string)
    requires Effective(m, a).Some?
    ensures var m', job := Do(m, a), Effective(m, a).value;
            && (job.Append? || job.Drain? || job.Load? ==> Registered(m'.cells, client) == Registered(m.cells, client))
            && (job.Save? ==> Registered(m'.cells, client) == if client == job.client then Some(job.info) else Registered(m.cells, client))
            && (job.Save? || job.Load? ==> Stored(m'.cells) == Stored(m.cells) && m'.pushed == m.pushed)
  {
  }

  lemma QueueJobEffect(m: Machine, a: Action)
    requires Effective(m, a).Some? && QueueOk(m) && Target(Effective(m, a).value) == ResultQueue
    ensures var m', job := Do(m, a), Effective(m, a).value;
            && (job.Append? ==> Stored(m'.cells) == Stored(m.cells) + [job.item] && Delivered(m') == Delivered(m))
            && (job.Drain? ==> Stored(m'.cells) == [] && Delivered(m') == Delivered(m) + Stored(m.cells))
  {
  }

  lemma EffectOnQueue(m: Machine, a: Action)
    requires Effective(m, a).Some? && QueueOk(m)
    ensures var x, x' := Perform(Abstract(m), Effective(m, a).value), Abstract(Do(m, a));
            x'.queue == x.queue && x'.delivered == x.delivered
  {
    if Target(Effective(m, a).value) == ResultQueue {
      QueueJobEffect(m, a);
    } else {
      JobsKeepToTheirCells(m, a, "");
    }
  }

  lemma EffectOnInfos(m: Machine, a: Action)
    requires Effective(m, a).Some?
    ensures Infos(Do(m, a).cells) == Perform(Abstract(m), Effective(m, a).value).infos
  {
    forall c: string
      ensures var job := Effective(m, a).value;
              Registered(Do(m, a).cells, c) == if job.Save? && job.client == c then Some(job.info) else Registered(m.cells, c)
    {
      JobsKeepToTheirCells(m, a, c);
    }
  }

  lemma EffectiveStep(m: Machine, a: Action)
    requires Effective(m, a).Some? && QueueOk(m)
    ensures Abstract(Do(m, a)) == Perform(Abstract(m), Effective(m, a).value)
  {
    EffectOnQueue(m, a);
    EffectOnInfos(m, a);
  }

  lemma StepRefines(m: Machine, a: Action)
    requires QueueOk(m)
    ensures var job := Effective(m, a);
            Abstract(Do(m, a)) == if job.Some? then Perform(Abstract(m), job.value) else Abstract(m)
  {
    if Effective(m, a).Some? {
      EffectiveStep(m, a);
    } else {
      var m' := Do(m, a);
      IneffectiveStep(m, a);
      assert Lookup(m'.cells, ValueOf(ResultQueue)) == Lookup(m.cells, ValueOf(ResultQueue));
      forall d
        ensures Registered(m'.cells, d) == Registered(m.cells, d)
      {
        assert Lookup(m'.cells, ValueOf(ClientRegister(d))) == Lookup(m.cells, ValueOf(ClientRegister(d)));
      }
    }
  }

  lemma {:induction false} AfterRefines(m: Machine, actions: seq<Action>)
    requires SawFree(m) && Exclusive(m, ResultQueue) && QueueOk(m)
    ensures Abstract(After(m, actions)) == PerformAll(Abstract(m), Trace(m, actions))
    decreases |actions|
  {
    if actions != [] {
      var m', job := Do(m, actions[0]), Effective(m, actions[0]);
      SawFreeStep(m, actions[0]);
      ExclusiveStep(m, actions[0], ResultQueue);
      QueueStep(m, actions[0]);
      StepRefines(m, actions[0]);
      AfterRefines(m', actions[1..]);
      if job.Some? {
        assert Trace(m, actions)[1..] == Trace(m', actions[1..]);
      } else {
        assert Trace(m, actions) == Trace(m', actions[1..]);
      }
    }
  }

  /** Every interleaving has the effect of performing some sequence of jobs one
      after the other, each indivisibly; what these deliver is what was handed
      over, up to a drain under way. */
  lemma InterleavingsAreAtomic(m0: Machine, actions: seq<Action>)
    requires Fresh(m0)
    ensures Abstract(After(m0, actions)) == PerformAll(Abstract(m0), Trace(m0, actions))
    ensures var m := After(m0, actions);
            (forall v :: !Draining(m, v)) ==> m.handed == Abstract(m).delivered
  {
    assert FreeLock(LockCell(m0, ResultQueue));
    assert m0.pushed == [] + Stored(m0.cells);
    AfterKeepsQueue(m0, actions);
    AfterRefines(m0, actions);
  }

  /******* Each success is one atomic step *******/

  /** How many jobs this worker brought into effect. */
  function EffectsOf(m: Machine, actions: seq<Action>, w: WorkerId): nat
    decreases |actions|
  {
    if actions == [] then 0
    else (if actions[0].worker == w && Effective(m, actions[0]).Some? then 1 else 0)
         + EffectsOf(Do(m, actions[0]), actions[1..], w)
  }

  /** This access ends the worker's call with another answer than a refusal. */
  predicate Succeeds(m: Machine, a: Action) {
    && a.Go? && a.worker in m.workers && !m.workers[a.worker].Returned?
    && var pc' := Do(m, a).workers[a.worker];
       pc'.Returned? && pc'.reply != Refused
  }

  /** How many of this worker's calls returned something else than a refusal. */
  function SuccessesOf(m: Machine, actions: seq<Action>, w: WorkerId): nat
    decreases |actions|
  {
    if actions == [] then 0
    else (if actions[0].worker == w && Succeeds(m, actions[0]) then 1 else 0)
         + SuccessesOf(Do(m, actions[0]), actions[1..], w)
  }

  function Pending(m: Machine, w: WorkerId): nat {
    if w in m.workers && m.workers[w].Release? && m.workers[w].reply != Refused then 1 else 0
  }

  lemma SuccessStep(m: Machine, a: Action, w: WorkerId)
    ensures (if a.worker == w && Effective(m, a).Some? then 1 else 0) + Pending(m, w)
         == (if a.worker == w && Succeeds(m, a) then 1 else 0) + Pending(Do(m, a), w)
  {
    if a.worker != w {
      OthersStay(m, a, w, ResultQueue);
    } else if w in m.workers {
      EffectiveLeadsToRelease(m, a);
    }
  }

  /** A worker's successful calls are its effective accesses, one for one; a
      refused call has none. */
  lemma {:induction false} OneEffectPerSuccess(m: Machine, actions: seq<Action>, w: WorkerId)
    ensures EffectsOf(m, actions, w) + Pending(m, w) == SuccessesOf(m, actions, w) + Pending(After(m, actions), w)
    decreases |actions|
  {
    if actions != [] {
      SuccessStep(m, actions[0], w);
      OneEffectPerSuccess(Do(m, actions[0]), actions[1..], w);
    }
  }

  /******* What a call answers *******/

  /** What is known of a worker's current call: its job, the jobs its accesses
      brought into effect, and what the indivisible job would answer. */
  datatype CallRecord = CallRecord(job: Option<Job>, effects: seq<Job>, reply: Reply)

  const NO_CALL := CallRecord(None, [], Refused)

  ghost function Observe(m: Machine, a: Action, w: WorkerId, c: CallRecord): CallRecord {
    if a.worker != w then
      c
    else if a.Start? then
      if w !in m.workers || m.workers[w].Returned? then CallRecord(Some(a.job), [], Refused) else c
    else
      var job := Effective(m, a);
      if job.Some? then c.(effects := c.effects + [job.value], reply := ReplyTo(Abstract(m), job.value)) else c
  }

  /** The record of the worker's current call after all the actions. */
  ghost function CallAfter(m: Machine, actions: seq<Action>, w: WorkerId, c: CallRecord): CallRecord
    decreases |actions|
  {
    if actions == [] then c else CallAfter(Do(m, actions[0]), actions[1..], w, Observe(m, actions[0], w, c))
  }

  function JobAt(pc: Pc): Job {
    match pc
    case Write(item, _) => Append(item)
    case Submit(_, _) => Drain
    case _ => pc.job
  }

  ghost predicate Fits(m: Machine, w: WorkerId, c: CallRecord) {
    if w !in m.workers then
      c == NO_CALL
    else
      var pc := m.workers[w];
      && c.job == Some(JobAt(pc))
      && (pc.Release? ==> c.effects == [JobAt(pc)] && c.reply == pc.reply != Refused)
      && (pc.Returned? ==> c.reply == pc.reply && c.effects == if pc.reply == Refused then [] else [JobAt(pc)])
      && (!pc.Release? && !pc.Returned? ==> c.effects == [] && c.reply == Refused)
  }

  lemma FitsStep(m: Machine, a: Action, w: WorkerId, c: CallRecord)
    requires Fits(m, w, c)
    ensures Fits(Do(m, a), w, Observe(m, a, w, c))
  {
    if a.worker != w {
      OthersStay(m, a, w, ResultQueue);
    } else if a.Go? && w in m.workers {
      EffectiveLeadsToRelease(m, a);
    }
  }

  lemma {:induction false} FitsAfter(m: Machine, actions: seq<Action>, w: WorkerId, c: CallRecord)
    requires Fits(m, w, c)
    ensures Fits(After(m, actions), w, CallAfter(m, actions, w, c))
    decreases |actions|
  {
    if actions != [] {
      FitsStep(m, actions[0], w, c);
      FitsAfter(Do(m, actions[0]), actions[1..], w, Observe(m, actions[0], w, c));
    }
  }

  /** Over every run, a worker's call that has returned answers for the job it was
      started with. It answers that it was refused exactly when none of its
      accesses was effective; otherwise exactly one was, for that job, and the
      answer is that of the indivisible job at that moment. */
  lemma RepliesAreHonest(m: Machine, actions: seq<Action>, w: WorkerId, job: Job, reply: Reply)
    requires m.workers == map[]
    requires w in After(m, actions).workers && After(m, actions).workers[w] == Returned(job, reply)
    ensures var c := CallAfter(m, actions, w, NO_CALL);
            && c.job == Some(job) && c.reply == reply
            && (reply == Refused <==> c.effects == [])
            && (reply != Refused <==> c.effects == [job])
  {
    FitsAfter(m, actions, w, NO_CALL);
  }
}
