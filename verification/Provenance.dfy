/** The chain and the workers of a node together: every `update_errand` that a
    worker issues goes back to a completed response for an open errand. */
module Provenance {
  import opened Types
  import opened Pallet
  import opened LocalStorage
  import opened LockProtocol
  import opened KeyedProtocol
  import opened KeyedQueue
  import opened ErrandLife
  import opened Workers

  /** A result some query pass obtained, and the run of the chain it saw. */
  datatype Fetch = Fetch(seen: Run, item: Item)

  datatype World = World(chain: Run, machine: Keyed, fetches: seq<Fetch>)

  /** The chain advances, a query pass runs, a fetched result is pushed, or a
      worker starts another job or makes its next access. */
  datatype Event =
    | Advance(step: Step)
    | Query(local: seq<AccountId>, responses: seq<Option<ErrandResultInfo>>)
    | Push(worker: WorkerId, fetch: nat)
    | Begin(worker: WorkerId, job: Job)
    | Access(worker: WorkerId)

  function FetchesOf(seen: Run, items: seq<Item>): seq<Fetch> {
    seq(|items|, i requires 0 <= i < |items| => Fetch(seen, items[i]))
  }

  function Happen(v: World, e: Event): World {
    match e
    case Advance(step) => v.(chain := Then(v.chain, step))
    case Query(local, responses) =>
      if |responses| == |Now(v.chain).work.processingErrands|
      then v.(fetches := v.fetches + FetchesOf(v.chain, QueryPass(Now(v.chain), local, responses)))
      else v
    case Push(w, i) =>
      if i < |v.fetches| then v.(machine := KeyedDo(v.machine, Start(w, Append(v.fetches[i].item)))) else v
    case Begin(w, job) =>
      if job.Append? then v else v.(machine := KeyedDo(v.machine, Start(w, job)))
    case Access(w) => v.(machine := KeyedDo(v.machine, Go(w)))
  }

  function Unfold(v: World, events: seq<Event>): World
    decreases |events|
  {
    if events == [] then v else Unfold(Happen(v, events[0]), events[1..])
  }

  /** The calls that `update_single_errand` was asked to sign, oldest first. */
  function Issued(m: Keyed): seq<Call> {
    seq(|m.handed|, i requires 0 <= i < |m.handed| => UpdateErrand(m.handed[i].cid, m.handed[i].info.resultCid))
  }

  /** Some responses to a node with a configured key contain the item. */
  ghost predicate FromPass(s: Storage, item: Item) {
    exists local, responses ::
      && |responses| == |s.work.processingErrands|
      && MayUpdate(s, local) && item in QueryPass(s, local, responses)
  }

  /** The pass ran at a height divisible by ten, at some point of the chain's
      past, on a node with a configured key, while the errand was open, and the
      item is one of its responses, marked completed. */
  ghost predicate Genuine(chain: Run, f: Fetch) {
    && Continues(chain, f.seen)
    && Now(f.seen).block % 10 == 0
    && f.item.cid in Now(f.seen).work.processingErrands
    && Open(Now(f.seen).work, f.item.cid)
    && f.item.info.completed
    && FromPass(Now(f.seen), f.item)
  }

  ghost predicate AllGenuine(v: World) {
    forall i :: 0 <= i < |v.fetches| ==> Genuine(v.chain, v.fetches[i])
  }

  predicate Known(v: World, item: Item) {
    exists i :: 0 <= i < |v.fetches| && v.fetches[i].item == item
  }

  predicate AllIn(items: seq<Item>, known: iset<Item>) {
    forall i :: 0 <= i < |items| ==> items[i] in known
  }

  predicate PcIn(pc: Pc, known: iset<Item>) {
    match pc
    case Write(item, items) => item in known && AllIn(items, known)
    case Submit(items, _) => AllIn(items, known)
    case _ => pc.job.Append? ==> pc.job.item in known
  }

  /** Every result anywhere in the machine is known. */
  ghost predicate MachineIn(m: Keyed, known: iset<Item>) {
    && AllIn(KeyedItems(m), known)
    && AllIn(m.handed, known)
    && (forall w :: w in m.workers ==> PcIn(m.workers[w], known))
  }

  lemma MachineInStep(m: Keyed, a: Action, known: iset<Item>)
    requires MachineIn(m, known)
    requires a.Start? && a.job.Append? ==> a.job.item in known
    ensures MachineIn(KeyedDo(m, a), known)
  {
    if a.Go? && a.worker in m.workers {
      var pc := m.workers[a.worker];
      assert PcIn(pc, known);
      QueueKeys(Accessed(pc));
      ProceedIn(pc, KeyedCell(m, Accessed(pc)), known);
    }
  }

  /** A worker that finds known results goes on with known results and writes
      no others. */
  lemma ProceedIn(pc: Pc, cell: Option<Cell>, known: iset<Item>)
    requires PcIn(pc, known) && (Accessed(pc) == ValueOf(ResultQueue) ==> AllIn(ItemsIn(cell), known))
    ensures PcIn(Proceed(pc, cell), known) && AllIn(HandedBy(pc), known)
    ensures Accessed(pc) == ValueOf(ResultQueue) && Written(pc, cell).Some? ==> AllIn(ItemsIn(Written(pc, cell)), known)
  {
  }

  ghost function KnownItems(v: World): iset<Item> {
    iset item | Known(v, item)
  }

  ghost predicate Traced(v: World) {
    FromGenesis(v.chain) && AllGenuine(v) && MachineIn(v.machine, KnownItems(v))
  }

  lemma GrowsKnown(m: Keyed, known: iset<Item>, more: iset<Item>)
    requires MachineIn(m, known) && known <= more
    ensures MachineIn(m, more)
  {
  }

  /** A query pass fetches only genuine results: the cid it reports is the one
      the errand is listed under. */
  lemma PassIsGenuine(chain: Run, local: seq<AccountId>, responses: seq<Option<ErrandResultInfo>>, item: Item)
    requires FromGenesis(chain) && |responses| == |Now(chain).work.processingErrands|
    requires item in QueryPass(Now(chain), local, responses)
    ensures Genuine(chain, Fetch(chain, item))
  {
    var w := Now(chain).work;
    FetchAllIsGenuine(w, w.processingErrands, responses, item);
    var i :| 0 <= i < |w.processingErrands| && w.processingErrands[i] in w.errands && item.cid == w.errands[w.processingErrands[i]].descriptionCid;
    IndexAgreement(chain, w.processingErrands[i]);
  }

  lemma QueryFetchesGenuine(v: World, local: seq<AccountId>, responses: seq<Option<ErrandResultInfo>>)
    requires FromGenesis(v.chain) && AllGenuine(v) && |responses| == |Now(v.chain).work.processingErrands|
    ensures AllGenuine(Happen(v, Query(local, responses)))
  {
    var v', items := Happen(v, Query(local, responses)), QueryPass(Now(v.chain), local, responses);
    forall i | 0 <= i < |v'.fetches|
      ensures Genuine(v'.chain, v'.fetches[i])
    {
      if i < |v.fetches| {
        assert v'.fetches[i] == v.fetches[i];
      } else {
        var item := items[i - |v.fetches|];
        assert v'.fetches[i] == Fetch(v.chain, item);
        PassIsGenuine(v.chain, local, responses, item);
      }
    }
  }

  lemma KnownStaysKnown(v: World, v': World, more: seq<Fetch>)
    requires v'.fetches == v.fetches + more
    ensures KnownItems(v) <= KnownItems(v')
  {
    forall item | Known(v, item)
      ensures Known(v', item)
    {
      var i :| 0 <= i < |v.fetches| && v.fetches[i].item == item;
      assert v'.fetches[i].item == item;
    }
  }

  lemma QueryStaysTraced(v: World, local: seq<AccountId>, responses: seq<Option<ErrandResultInfo>>)
    requires Traced(v) && |responses| == |Now(v.chain).work.processingErrands|
    ensures Traced(Happen(v, Query(local, responses)))
  {
    var v' := Happen(v, Query(local, responses));
    QueryFetchesGenuine(v, local, responses);
    KnownStaysKnown(v, v', FetchesOf(v.chain, QueryPass(Now(v.chain), local, responses)));
    GrowsKnown(v.machine, KnownItems(v), KnownItems(v'));
  }

  lemma ActionStaysTraced(v: World, a: Action)
    requires Traced(v)
    requires a.Start? && a.job.Append? ==> Known(v, a.job.item)
    ensures Traced(v.(machine := KeyedDo(v.machine, a)))
  {
    var v' := v.(machine := KeyedDo(v.machine, a));
    MachineInStep(v.machine, a, KnownItems(v));
    assert forall item :: Known(v, item) ==> Known(v', item);
    GrowsKnown(v'.machine, KnownItems(v), KnownItems(v'));
  }

  lemma AdvanceStaysTraced(v: World, step: Step)
    requires Traced(v)
    ensures Traced(Happen(v, Advance(step)))
  {
    var v' := Happen(v, Advance(step));
    assert forall item :: Known(v, item) ==> Known(v', item);
    GrowsKnown(v.machine, KnownItems(v), KnownItems(v'));
    forall i | 0 <= i < |v'.fetches|
      ensures Genuine(v'.chain, v'.fetches[i])
    {
      assert Genuine(v.chain, v.fetches[i]);
    }
  }

  lemma TracedStep(v: World, e: Event)
    requires Traced(v)
    ensures Traced(Happen(v, e))
  {
    match e
    case Advance(step) => AdvanceStaysTraced(v, step);
    case Query(local, responses) =>
      if |responses| == |Now(v.chain).work.processingErrands| {
        QueryStaysTraced(v, local, responses);
      }
    case Push(w, i) =>
      if i < |v.fetches| {
        assert Known(v, v.fetches[i].item);
        ActionStaysTraced(v, Start(w, Append(v.fetches[i].item)));
      }
    case Begin(w, job) =>
      if !job.Append? {
        ActionStaysTraced(v, Start(w, job));
      }
    case Access(w) => ActionStaysTraced(v, Go(w));
  }

  lemma {:induction false} UnfoldKeepsTraced(v: World, events: seq<Event>)
    requires Traced(v)
    ensures Traced(Unfold(v, events))
    decreases |events|
  {
    if events != [] {
      TracedStep(v, events[0]);
      UnfoldKeepsTraced(Happen(v, events[0]), events[1..]);
    }
  }

  /** However chain, queries and workers interleave, every `update_errand` that a
      worker issues carries the cid and the result of a genuine fetch. */
  lemma UpdatesComeFromFetches(v: World, events: seq<Event>, i: nat)
    requires FromGenesis(v.chain) && v.fetches == []
    requires v.machine.workers == map[] && v.machine.handed == [] && KeyedItems(v.machine) == []
    requires i < |Issued(Unfold(v, events).machine)|
    ensures var u := Unfold(v, events);
            exists j :: 0 <= j < |u.fetches| && Genuine(u.chain, u.fetches[j])
              && Issued(u.machine)[i] == UpdateErrand(u.fetches[j].item.cid, u.fetches[j].item.info.resultCid)
  {
    UnfoldKeepsTraced(v, events);
    var u := Unfold(v, events);
    assert u.machine.handed[i] in KnownItems(u);
    var j :| 0 <= j < |u.fetches| && u.fetches[j].item == u.machine.handed[i];
    assert Genuine(u.chain, u.fetches[j]);
  }
}
