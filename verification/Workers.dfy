/** The loops an off-chain worker runs over chain storage. What the network
    answers is a parameter: whether each task could be sent, and the response to
    each query. */
module Workers {
  import opened Types
  import opened Pallet
  import opened Hiring
  import opened LocalStorage
  import opened PalletStorage
  import opened LockProtocol
  import opened NodeStorage
  import opened Refinement
  import opened ErrandLife

  /******* Sending tasks *******/

  /** The local keys of this account. */
  function KeysOf(local: seq<AccountId>, d: AccountId): seq<AccountId> {
    if local == [] then []
    else KeysOf(local[..|local| - 1], d) + if local[|local| - 1] == d then [d] else []
  }

  lemma {:induction false} KeysOfMembers(local: seq<AccountId>, d: AccountId)
    ensures forall i :: 0 <= i < |KeysOf(local, d)| ==> KeysOf(local, d)[i] == d
    ensures |KeysOf(local, d)| == multiset(local)[d]
    ensures KeysOf(local, d) != [] <==> d in local
  {
    if local != [] {
      var rest, last := local[..|local| - 1], local[|local| - 1];
      KeysOfMembers(rest, d);
      assert local == rest + [last];
      assert multiset(local) == multiset(rest) + multiset{last};
      var keys := KeysOf(rest, d);
      assert KeysOf(local, d) == if last == d then keys + [d] else keys;
    }
  }

  /** One `init_errand` per key. */
  function InitCalls(keys: seq<AccountId>, task: TaskInfo): seq<Step> {
    seq(|keys|, i requires 0 <= i < |keys| =>
      Dispatch(Signed(keys[i]), InitErrand(task.client, task.errandId, task.descriptionCid)))
  }

  /** The calls issued for one entry, if it could be sent. */
  function EntryCalls(g: Registry, task: TaskInfo, local: seq<AccountId>, ok: bool): seq<Step>
    requires task.delegator in g.delegateAccounts
  {
    if ok then InitCalls(KeysOf(local, g.delegateAccounts[task.delegator]), task) else []
  }

  /** The calls issued for a queue, up to the first unregistered name. */
  function Sends(g: Registry, queue: seq<TaskInfo>, local: seq<AccountId>, sent: seq<bool>): seq<Step>
    requires |sent| == |queue|
  {
    if queue == [] || queue[0].delegator !in g.delegateAccounts then
      []
    else
      EntryCalls(g, queue[0], local, sent[0]) + Sends(g, queue[1..], local, sent[1..])
  }

  /** `send_errand_tasks`. */
  method SendErrandTasks(s: Storage, block: BlockNumber, local: seq<AccountId>, sent: seq<bool>) returns (issued: seq<Step>)
    requires |sent| == |Get(s.escrow.tasks, block, [])|
    ensures issued == Sends(s.registry, Get(s.escrow.tasks, block, []), local, sent)
  {
    issued := [];
    if block !in s.escrow.tasks {
      return;
    }
    var queue, g := s.escrow.tasks[block], s.registry;
    ghost var all := Sends(g, queue, local, sent);
    assert queue[0..] == queue && sent[0..] == sent;
    for i := 0 to |queue|
      invariant all == issued + Sends(g, queue[i..], local, sent[i..])
    {
      SendsUnfold(g, queue, local, sent, i);
      var item := queue[i];
      if item.delegator !in g.delegateAccounts {
        return;
      }
      var signers := FilterSigners(local, g.delegateAccounts[item.delegator]);
      ghost var before, rest := issued, Sends(g, queue[i + 1..], local, sent[i + 1..]);
      if |signers| != 0 && sent[i] {
        issued := issued + InitCalls(signers, item);
      }
      assert issued == before + EntryCalls(g, item, local, sent[i]);
      Associate(before, EntryCalls(g, item, local, sent[i]), rest);
    }
  }

  lemma Associate(a: seq<Step>, b: seq<Step>, c: seq<Step>)
    ensures a + (b + c) == (a + b) + c
  {
  }

  lemma SendsUnfold(g: Registry, queue: seq<TaskInfo>, local: seq<AccountId>, sent: seq<bool>, i: nat)
    requires |sent| == |queue| && i < |queue|
    ensures Sends(g, queue[i..], local, sent[i..]) ==
            if queue[i].delegator !in g.delegateAccounts then []
            else EntryCalls(g, queue[i], local, sent[i]) + Sends(g, queue[i + 1..], local, sent[i + 1..])
  {
    assert queue[i..][0] == queue[i] && sent[i..][0] == sent[i];
    assert queue[i..][1..] == queue[i + 1..] && sent[i..][1..] == sent[i + 1..];
  }

  method FilterSigners(local: seq<AccountId>, delegator: AccountId) returns (signers: seq<AccountId>)
    ensures signers == KeysOf(local, delegator)
  {
    signers := [];
    for i := 0 to |local|
      invariant signers == KeysOf(local[..i], delegator)
    {
      assert local[..i + 1][..i] == local[..i];
      if local[i] == delegator {
        signers := signers + [delegator];
      }
    }
    assert local[..|local|] == local;
  }

  /** Entry `i` is sent, no name up to it is unregistered, its delegate is local,
      and this is the call that initialises it, signed by that delegate. */
  predicate IssuedFor(g: Registry, queue: seq<TaskInfo>, local: seq<AccountId>, sent: seq<bool>, i: nat, step: Step)
    requires |sent| == |queue| && i < |queue|
  {
    && (forall j :: 0 <= j <= i ==> queue[j].delegator in g.delegateAccounts)
    && sent[i]
    && var d := g.delegateAccounts[queue[i].delegator];
       d in local
       && step == Dispatch(Signed(d), InitErrand(queue[i].client, queue[i].errandId, queue[i].descriptionCid))
  }

  /** A call is issued exactly when it is the one of such an entry. */
  lemma {:induction false} DispatchFollowsQueue(g: Registry, queue: seq<TaskInfo>, local: seq<AccountId>, sent: seq<bool>, step: Step)
    requires |sent| == |queue|
    ensures step in Sends(g, queue, local, sent)
       <==> exists i: nat :: i < |queue| && IssuedFor(g, queue, local, sent, i, step)
    decreases |queue|
  {
    if queue != [] && queue[0].delegator in g.delegateAccounts {
      var d := g.delegateAccounts[queue[0].delegator];
      var first := InitCalls(KeysOf(local, d), queue[0]);
      KeysOfMembers(local, d);
      DispatchFollowsQueue(g, queue[1..], local, sent[1..], step);
      assert step in first <==> d in local && step == Dispatch(Signed(d), InitErrand(queue[0].client, queue[0].errandId, queue[0].descriptionCid)) by {
        if d in local {
          assert first[0] in first;
        }
      }
      assert IssuedFor(g, queue, local, sent, 0, step) <==> sent[0] && step in first;
      forall i: nat | i < |queue| - 1
        ensures IssuedFor(g, queue[1..], local, sent[1..], i, step) <==> IssuedFor(g, queue, local, sent, i + 1, step)
      {
        IssuedForShift(g, queue, local, sent, i, step);
      }
      assert forall i: nat :: 0 < i < |queue| && IssuedFor(g, queue, local, sent, i, step) ==> IssuedFor(g, queue[1..], local, sent[1..], i - 1, step);
    } else {
      assert forall i: nat :: i < |queue| ==> !IssuedFor(g, queue, local, sent, i, step) by {
        forall i: nat | i < |queue|
          ensures !IssuedFor(g, queue, local, sent, i, step)
        {
          assert queue[0].delegator !in g.delegateAccounts;
        }
      }
    }
  }

  lemma IssuedForShift(g: Registry, queue: seq<TaskInfo>, local: seq<AccountId>, sent: seq<bool>, i: nat, step: Step)
    requires |sent| == |queue| && i < |queue| - 1 && queue[0].delegator in g.delegateAccounts
    ensures IssuedFor(g, queue[1..], local, sent[1..], i, step) <==> IssuedFor(g, queue, local, sent, i + 1, step)
  {
  }

  /** No name up to this entry is unregistered, and it could be sent. */
  predicate Reached(g: Registry, queue: seq<TaskInfo>, sent: seq<bool>, i: nat)
    requires |sent| == |queue| && i < |queue|
  {
    (forall j :: 0 <= j <= i ==> queue[j].delegator in g.delegateAccounts) && sent[i]
  }

  /** How many calls an entry gives rise to: one for each local key of its delegate. */
  ghost function CallsFor(g: Registry, queue: seq<TaskInfo>, local: seq<AccountId>, sent: seq<bool>, i: nat): nat
    requires |sent| == |queue| && i < |queue|
  {
    if Reached(g, queue, sent, i) then multiset(local)[g.delegateAccounts[queue[i].delegator]] else 0
  }

  /** The call that initialises a registered entry, signed by its delegate. */
  function CallOf(g: Registry, task: TaskInfo): Step
    requires task.delegator in g.delegateAccounts
  {
    Dispatch(Signed(g.delegateAccounts[task.delegator]), InitErrand(task.client, task.errandId, task.descriptionCid))
  }

  function Copies(n: nat, step: Step): seq<Step> {
    seq(n, _ => step)
  }

  /** The calls of the first `n` entries, entry by entry. */
  ghost function CallsUpTo(g: Registry, queue: seq<TaskInfo>, local: seq<AccountId>, sent: seq<bool>, n: nat): seq<Step>
    requires |sent| == |queue| && n <= |queue|
  {
    if n == 0 then
      []
    else
      CallsUpTo(g, queue, local, sent, n - 1)
      + if Reached(g, queue, sent, n - 1) then Copies(CallsFor(g, queue, local, sent, n - 1), CallOf(g, queue[n - 1])) else []
  }

  lemma OneEntry(g: Registry, task: TaskInfo, local: seq<AccountId>, ok: bool)
    requires task.delegator in g.delegateAccounts
    ensures var d := g.delegateAccounts[task.delegator];
            EntryCalls(g, task, local, ok) == if ok then Copies(multiset(local)[d], CallOf(g, task)) else []
  {
    KeysOfMembers(local, g.delegateAccounts[task.delegator]);
  }

  predicate RegisteredUpTo(g: Registry, queue: seq<TaskInfo>, i: nat)
    requires i <= |queue|
  {
    forall j :: 0 <= j < i ==> queue[j].delegator in g.delegateAccounts
  }

  /** Nothing comes from entries behind an unregistered name. */
  lemma {:induction false} NothingBehind(g: Registry, queue: seq<TaskInfo>, local: seq<AccountId>, sent: seq<bool>, i: nat, n: nat)
    requires |sent| == |queue| && i <= n <= |queue| && (i < |queue| ==> !RegisteredUpTo(g, queue, i + 1))
    ensures CallsUpTo(g, queue, local, sent, n) == CallsUpTo(g, queue, local, sent, i)
  {
    if i < n {
      NothingBehind(g, queue, local, sent, i, n - 1);
    }
  }

  lemma EntryExtends(g: Registry, queue: seq<TaskInfo>, local: seq<AccountId>, sent: seq<bool>, i: nat)
    requires |sent| == |queue| && i < |queue| && RegisteredUpTo(g, queue, i + 1)
    ensures CallsUpTo(g, queue, local, sent, i + 1) == CallsUpTo(g, queue, local, sent, i) + EntryCalls(g, queue[i], local, sent[i])
  {
    OneEntry(g, queue[i], local, sent[i]);
  }

  lemma {:induction false} SendsFrom(g: Registry, queue: seq<TaskInfo>, local: seq<AccountId>, sent: seq<bool>, i: nat)
    requires |sent| == |queue| && i <= |queue| && RegisteredUpTo(g, queue, i)
    ensures CallsUpTo(g, queue, local, sent, |queue|) == CallsUpTo(g, queue, local, sent, i) + Sends(g, queue[i..], local, sent[i..])
    decreases |queue| - i
  {
    if i < |queue| {
      SendsUnfold(g, queue, local, sent, i);
      if queue[i].delegator in g.delegateAccounts {
        SendsFrom(g, queue, local, sent, i + 1);
        EntryExtends(g, queue, local, sent, i);
        Associate(CallsUpTo(g, queue, local, sent, i), EntryCalls(g, queue[i], local, sent[i]), Sends(g, queue[i + 1..], local, sent[i + 1..]));
      } else {
        NothingBehind(g, queue, local, sent, i, |queue|);
      }
    }
  }

  /** The calls come in the order of the queue, for each entry as many as its
      delegate has local keys, up to the first unregistered name. */
  lemma SendsExactly(g: Registry, queue: seq<TaskInfo>, local: seq<AccountId>, sent: seq<bool>)
    requires |sent| == |queue|
    ensures Sends(g, queue, local, sent) == CallsUpTo(g, queue, local, sent, |queue|)
  {
    SendsFrom(g, queue, local, sent, 0);
    assert queue[0..] == queue && sent[0..] == sent;
  }

  /** At any later time, an issued call is accepted exactly when the client's
      latest `begin_task` resolved to the account that signed the call and the
      client was not removed since. */
  lemma DispatchAcceptedFromLastHire(r: Run, later: Run, block: BlockNumber, local: seq<AccountId>, sent: seq<bool>, step: Step)
    requires FromGenesis(later) && Continues(later, r)
    requires |sent| == |Get(Now(r).escrow.tasks, block, [])|
    requires step in Sends(Now(r).registry, Get(Now(r).escrow.tasks, block, []), local, sent)
    ensures step.Dispatch? && step.origin.Signed? && step.call.InitErrand?
    ensures Next(Now(later), step).outcome.Ok? <==> LastHire(later, step.call.client) == Some(step.origin.who)
  {
    DispatchFollowsQueue(Now(r).registry, Get(Now(r).escrow.tasks, block, []), local, sent, step);
    InitAcceptedFromLastHire(later, step.origin.who, step.call.client, step.call.errandId, step.call.cid);
  }

  /******* Querying results *******/

  /** The node holds a key of an account that may update results. */
  predicate MayUpdate(s: Storage, local: seq<AccountId>) {
    exists a :: a in s.config.updateResultAccounts && a in local
  }

  /** What a response adds to the results to be pushed. */
  function Fetched(w: Work, k: Cid, response: Option<ErrandResultInfo>): seq<Item> {
    if k in w.errands && response.Some? && response.value.completed
    then [Item(w.errands[k].descriptionCid, response.value)]
    else []
  }

  function FetchAll(w: Work, ks: seq<Cid>, responses: seq<Option<ErrandResultInfo>>): seq<Item>
    requires |responses| == |ks|
  {
    if ks == [] then []
    else FetchAll(w, ks[..|ks| - 1], responses[..|ks| - 1]) + Fetched(w, ks[|ks| - 1], responses[|ks| - 1])
  }

  /** The results one pass over the open errands wants to push. */
  function QueryPass(s: Storage, local: seq<AccountId>, responses: seq<Option<ErrandResultInfo>>): seq<Item>
    requires |responses| == |s.work.processingErrands|
  {
    if s.block % 10 == 0 && MayUpdate(s, local) then FetchAll(s.work, s.work.processingErrands, responses) else []
  }

  predicate QueueFree(cells: Cells) {
    FreeLock(Lookup(cells, LockOf(ResultQueue)))
  }

  /** The items were appended to the stored results and nothing else happened;
      or nothing at all, if the lock was taken. */
  ghost predicate Pushes(before: Cells, after: Cells, items: seq<Item>) {
    && OnlyTouches(before, after, ResultQueue)
    && (QueueFree(before) ==> QueueFree(after) && Stored(after) == Stored(before) + items && Infos(after) == Infos(before))
    && (!QueueFree(before) || items == [] ==> after == before)
  }

  lemma PushesCompose(a: Cells, b: Cells, c: Cells, x: seq<Item>, y: seq<Item>)
    requires Pushes(a, b, x) && Pushes(b, c, y)
    ensures Pushes(a, c, x + y)
  {
  }

  /** `fetch_single_task_result`, given the response. A push that finds the lock
      taken is dropped. */
  method FetchSingleTaskResult(cid: Cid, response: Option<ErrandResultInfo>, node: Node)
    modifies node`cells
    ensures Pushes(old(node.cells), node.cells,
                   if response.Some? && response.value.completed then [Item(cid, response.value)] else [])
  {
    match response {
      case Some(info) =>
        if info.completed {
          var _ := node.PushResult(Item(cid, info));
        }
      case None =>
    }
  }

  /** `query_errand_task_results`, together with the pushes it makes. */
  method QueryErrandTaskResults(s: Storage, local: seq<AccountId>, responses: seq<Option<ErrandResultInfo>>, node: Node)
    requires |responses| == |s.work.processingErrands|
    modifies node`cells
    ensures Pushes(old(node.cells), node.cells, QueryPass(s, local, responses))
  {
    if s.block % 10 != 0 {
      return;
    }
    var allowed := Abc.AllowToUpdateResult(s.config.updateResultAccounts, local);
    if !allowed {
      return;
    }
    var ks := s.work.processingErrands;
    for i := 0 to |ks|
      invariant Pushes(old(node.cells), node.cells, FetchAll(s.work, ks[..i], responses[..i]))
    {
      assert ks[..i + 1][..i] == ks[..i] && responses[..i + 1][..i] == responses[..i];
      ghost var before := node.cells;
      if ks[i] in s.work.errands {
        FetchSingleTaskResult(s.work.errands[ks[i]].descriptionCid, responses[i], node);
      }
      PushesCompose(old(node.cells), before, node.cells, FetchAll(s.work, ks[..i], responses[..i]), Fetched(s.work, ks[i], responses[i]));
    }
    assert ks[..|ks|] == ks && responses[..|ks|] == responses;
  }

  /** Everything fetched is a completed response for a listed errand. */
  lemma {:induction false} FetchAllIsGenuine(w: Work, ks: seq<Cid>, responses: seq<Option<ErrandResultInfo>>, item: Item)
    requires |responses| == |ks|
    requires item in FetchAll(w, ks, responses)
    ensures item.info.completed
    ensures exists i :: 0 <= i < |ks| && ks[i] in w.errands && item.cid == w.errands[ks[i]].descriptionCid && responses[i] == Some(item.info)
  {
    var n := |ks| - 1;
    if item in FetchAll(w, ks[..n], responses[..n]) {
      FetchAllIsGenuine(w, ks[..n], responses[..n], item);
      var i :| 0 <= i < n && ks[..n][i] in w.errands && item.cid == w.errands[ks[..n][i]].descriptionCid && responses[..n][i] == Some(item.info);
      assert ks[i] in w.errands && responses[i] == Some(item.info);
    }
  }

  /** Nothing completed is left out: the pass is exactly the completed responses
      for the listed errands, in the order of the index; `at` lists the places
      they come from. */
  lemma {:induction false} FetchAllIsExactly(w: Work, ks: seq<Cid>, responses: seq<Option<ErrandResultInfo>>) returns (at: seq<nat>)
    requires |responses| == |ks|
    ensures Ascending(at) && |at| == |FetchAll(w, ks, responses)|
    ensures forall j :: 0 <= j < |at| ==>
              && at[j] < |ks| && CompletedAt(w, ks, responses, at[j])
              && FetchAll(w, ks, responses)[j] == Item(w.errands[ks[at[j]]].descriptionCid, responses[at[j]].value)
    ensures forall i: nat :: i < |ks| && CompletedAt(w, ks, responses, i) ==> i in at
  {
    at := [];
    if ks != [] {
      var n := |ks| - 1;
      at := FetchAllIsExactly(w, ks[..n], responses[..n]);
      forall i: nat | i < n
        ensures CompletedAt(w, ks[..n], responses[..n], i) <==> CompletedAt(w, ks, responses, i)
      {
      }
      if CompletedAt(w, ks, responses, n) {
        at := at + [n];
      }
    }
  }

  /** The errand is there and its response was marked completed. */
  predicate CompletedAt(w: Work, ks: seq<Cid>, responses: seq<Option<ErrandResultInfo>>, i: nat)
    requires |responses| == |ks| && i < |ks|
  {
    ks[i] in w.errands && responses[i].Some? && responses[i].value.completed
  }

  /** On every run, a pass at a height divisible by ten with a configured key
      fetches the completed response of every open errand under its cid, in the
      order of the index, and nothing else; any other pass fetches nothing. */
  lemma QueryPassIsExactly(r: Run, local: seq<AccountId>, responses: seq<Option<ErrandResultInfo>>) returns (at: seq<nat>)
    requires FromGenesis(r) && |responses| == |Now(r).work.processingErrands|
    ensures var s, items := Now(r), QueryPass(Now(r), local, responses);
            if s.block % 10 == 0 && exists a :: a in local && a in s.config.updateResultAccounts then
              && Ascending(at) && |at| == |items|
              && (forall j :: 0 <= j < |at| ==>
                    && at[j] < |responses| && responses[at[j]] == Some(items[j].info) && items[j].info.completed
                    && items[j].cid == s.work.processingErrands[at[j]])
              && (forall i: nat :: i < |responses| && responses[i].Some? && responses[i].value.completed ==> i in at)
            else
              items == []
  {
    var s := Now(r);
    var ks := s.work.processingErrands;
    at := FetchAllIsExactly(s.work, ks, responses);
    forall i: nat | i < |ks|
      ensures ks[i] in s.work.errands && s.work.errands[ks[i]].descriptionCid == ks[i]
    {
      IndexAgreement(r, ks[i]);
    }
    assert forall i: nat :: i < |ks| && responses[i].Some? && responses[i].value.completed ==> CompletedAt(s.work, ks, responses, i);
  }

  /******* Submitting results *******/

  /** `update_errand_task_results`. */
  method UpdateErrandTaskResults(s: Storage, local: seq<AccountId>, node: Node)
    modifies node
    ensures MayUpdate(s, local) && QueueFree(old(node.cells)) ==>
              && node.Contents() == Perform(old(node.Contents()), Drain)
              && QueueFree(node.cells)
    ensures !(MayUpdate(s, local) && QueueFree(old(node.cells))) ==>
              node.cells == old(node.cells) && node.submitted == old(node.submitted)
  {
    var allowed := Abc.AllowToUpdateResult(s.config.updateResultAccounts, local);
    if allowed {
      var _ := node.LoadTasksResults();
    }
  }

  /** `offchain_worker`, without the applications: the tasks of the block are sent,
      and on a node with a configured key everything stored before, followed by
      everything this pass fetches, is submitted and taken off the list. */
  method OffchainWorker(s: Storage, local: seq<AccountId>, sent: seq<bool>, responses: seq<Option<ErrandResultInfo>>, node: Node)
    returns (issued: seq<Step>)
    requires |sent| == |Get(s.escrow.tasks, s.block, [])| && |responses| == |s.work.processingErrands|
    modifies node
    ensures issued == Sends(s.registry, Get(s.escrow.tasks, s.block, []), local, sent)
    ensures MayUpdate(s, local) && QueueFree(old(node.cells)) ==>
              && node.submitted == old(node.submitted) + old(node.Contents()).queue + QueryPass(s, local, responses)
              && node.Contents().queue == [] && node.Contents().infos == old(node.Contents()).infos
    ensures !(MayUpdate(s, local) && QueueFree(old(node.cells))) ==>
              node.cells == old(node.cells) && node.submitted == old(node.submitted)
  {
    issued := SendErrandTasks(s, s.block, local, sent);
    QueryErrandTaskResults(s, local, responses, node);
    UpdateErrandTaskResults(s, local, node);
  }
}
