/** Which delegate works for which client, over whole runs: the chain of calls
    behind every errand, and when an `init_errand` is accepted. */
module Hiring {
  import opened Types
  import opened Pallet
  import opened ErrandLife

  predicate Requests(s: Storage, step: Step, d: AccountId) {
    && step.Dispatch? && step.call.RequestDelegate?
    && step.origin == Signed(d) && Next(s, step).outcome.Ok?
  }

  predicate Activates(s: Storage, step: Step, d: AccountId) {
    && step.Dispatch? && step.call.UpdateDelegateStatus?
    && step.origin == Signed(d) && Next(s, step).outcome.Ok?
  }

  /** An accepted `begin_task` of the client whose delegate name resolves to `d`. */
  predicate Hires(s: Storage, step: Step, client: AccountId, d: AccountId) {
    && Begins(s, step, client)
    && step.call.name in s.registry.delegateAccounts
    && s.registry.delegateAccounts[step.call.name] == d
  }

  predicate Removes(step: Step, client: AccountId) {
    step.Dispatch? && step.call.Unreserve? && step.call.client == client
  }

  /** An accepted `init_errand` for this cid and client, sent by `d`. */
  predicate InitsFor(s: Storage, step: Step, k: Cid, client: AccountId, d: AccountId) {
    Inits(s, step, k) && step.call.client == client && step.origin == Signed(d)
  }

  /** What a step does to one client's delegate, to its fee, and to one
      delegate's entry. */
  lemma HireStep(s: Storage, step: Step, client: AccountId)
    ensures var m, m' := s.escrow.clientDelegate, Next(s, step).storage.escrow.clientDelegate;
            if Begins(s, step, client) then
              client in m' && Hires(s, step, client, m'[client])
            else if Removes(step, client) then
              client !in m'
            else
              (client in m <==> client in m') && (client in m ==> m[client] == m'[client])
  {
  }

  lemma FeeStep(s: Storage, step: Step, client: AccountId)
    ensures var m, m' := s.escrow.clientTaskFee, Next(s, step).storage.escrow.clientTaskFee;
            if Begins(s, step, client) then
              client in m' && m'[client] == step.call.fee
            else
              (client in m <==> client in m') && (client in m ==> m[client] == m'[client])
  {
  }

  lemma DelegateStep(s: Storage, step: Step, d: AccountId)
    ensures var m, m' := s.registry.delegates, Next(s, step).storage.registry.delegates;
            && (d in m' ==> d in m || Requests(s, step, d))
            && (d in m' && m'[d] ==> (d in m && m[d]) || (d in m && Activates(s, step, d)))
  {
  }

  /******* When an errand can be initialised *******/

  /** The delegate of the client's last accepted `begin_task`, unless an
      `unreserve` for the client came after it. */
  function LastHire(r: Run, client: AccountId): Option<AccountId> {
    if r.Genesis? then
      None
    else if Begins(Now(r.past), r.step, client) then
      Some(Get(Now(r.past).registry.delegateAccounts, r.step.call.name, DEFAULT_ACCOUNT))
    else if Removes(r.step, client) then
      None
    else
      LastHire(r.past, client)
  }

  lemma {:induction false} DelegateIsLastHire(r: Run, client: AccountId)
    requires FromGenesis(r)
    ensures var m := Now(r).escrow.clientDelegate;
            LastHire(r, client) == if client in m then Some(m[client]) else None
  {
    if r.Then? {
      DelegateIsLastHire(r.past, client);
      HireStep(Now(r.past), r.step, client);
    }
  }

  /** An `init_errand` is accepted exactly from the delegate that the client's
      latest `begin_task` resolved to, and not after an `unreserve` for the
      client; neither the cid nor the errand id matters. */
  lemma {:induction false} InitAcceptedFromLastHire(r: Run, sender: AccountId, client: AccountId, errandId: ErrandId, k: Cid)
    requires FromGenesis(r)
    ensures Next(Now(r), Dispatch(Signed(sender), InitErrand(client, errandId, k))).outcome.Ok?
       <==> LastHire(r, client) == Some(sender)
  {
    DelegateIsLastHire(r, client);
  }

  /** A finished errand is open to any client's current delegate: its
      `init_errand` starts the cid afresh for that client, and then a single
      submission of any configured account completes it. */
  lemma {:induction false} ReopenedErrandNeedsOneSubmission(r: Run, c: AccountId, d: AccountId, id: ErrandId, k: Cid, a: AccountId, x: Bytes)
    requires FromGenesis(r) && !Now(r).config.developmentMode && Closed(Now(r).work, k)
    requires LastHire(r, c) == Some(d) && a in Now(r).config.updateResultAccounts
    ensures var init, update := Dispatch(Signed(d), InitErrand(c, id, k)), Dispatch(Signed(a), UpdateErrand(k, x));
            var r1 := Then(r, init);
            && Inits(Now(r), init, k) && InitCount(r1, k) >= 2
            && Open(Now(r1).work, k) && Now(r1).work.errands[k].client == c
            && Settles(Now(r1), update, k) && Closed(Now(Then(r1, update)).work, k)
            && Now(Then(r1, update)).work.errands[k].result == x
  {
    var init, update := Dispatch(Signed(d), InitErrand(c, id, k)), Dispatch(Signed(a), UpdateErrand(k, x));
    var s1 := Next(Now(r), init).storage;
    InitAcceptedFromLastHire(r, d, c, id, k);
    QuorumOfSubmissions(r, k);
    SettlementBound(r, k);
    ErrandStep(Now(r), init, k);
    VoteStep(Now(r), init, k);
    StepKeepsConfiguration(Now(r), init);
    ErrandStep(s1, update, k);
  }

  /******* Causal order *******/

  /** Somewhere in the run, `d` applied to be a delegate. */
  ghost predicate Applied(r: Run, d: AccountId) {
    r.Then? && (Requests(Now(r.past), r.step, d) || Applied(r.past, d))
  }

  /** Somewhere in the run, `d` set its own status, having applied before. */
  ghost predicate Activated(r: Run, d: AccountId) {
    r.Then? && ((Activates(Now(r.past), r.step, d) && Applied(r.past, d)) || Activated(r.past, d))
  }

  /** Somewhere in the run, `client` began a task that resolved to `d`, after
      `d` had set its status. */
  ghost predicate Hired(r: Run, client: AccountId, d: AccountId) {
    r.Then? && ((Hires(Now(r.past), r.step, client, d) && Activated(r.past, d)) || Hired(r.past, client, d))
  }

  /** Somewhere in the run, `d` initialised the errand for `client`, after
      `client` had hired `d`. */
  ghost predicate Initialised(r: Run, k: Cid, client: AccountId, d: AccountId) {
    r.Then? && ((InitsFor(Now(r.past), r.step, k, client, d) && Hired(r.past, client, d)) || Initialised(r.past, k, client, d))
  }

  lemma {:induction false} DelegatesApplied(r: Run, d: AccountId)
    requires FromGenesis(r)
    ensures d in Now(r).registry.delegates ==> Applied(r, d)
    ensures d in Now(r).registry.delegates && Now(r).registry.delegates[d] ==> Activated(r, d)
  {
    if r.Then? {
      DelegatesApplied(r.past, d);
      DelegateStep(Now(r.past), r.step, d);
    }
  }

  lemma {:induction false} ClientsHired(r: Run, client: AccountId)
    requires FromGenesis(r)
    ensures var m := Now(r).escrow.clientDelegate;
            client in m ==> Hired(r, client, m[client])
  {
    if r.Then? {
      var s, m' := Now(r.past), Now(r).escrow.clientDelegate;
      ClientsHired(r.past, client);
      HireStep(s, r.step, client);
      if Begins(s, r.step, client) {
        DelegatesApplied(r.past, m'[client]);
      }
    }
  }

  /** Behind every stored errand stand, in this order, a delegate's application,
      its own status update, a task begun by the errand's client that resolved
      to it, and an `init_errand` it sent. */
  lemma {:induction false} CausalOrder(r: Run, k: Cid)
    requires FromGenesis(r)
    ensures k in Now(r).work.errands ==>
              exists d :: Initialised(r, k, Now(r).work.errands[k].client, d)
  {
    if r.Then? && k in Now(r).work.errands {
      var s, client := Now(r.past), Now(r).work.errands[k].client;
      CausalOrder(r.past, k);
      if Inits(s, r.step, k) {
        var d := r.step.origin.who;
        ClientsHired(r.past, client);
        assert InitsFor(s, r.step, k, client, d);
        assert Initialised(r, k, client, d);
      } else {
        OwnerStays(s, r.step, k);
        var d :| Initialised(r.past, k, client, d);
        assert Initialised(r, k, client, d);
      }
    }
  }

  lemma OwnerStays(s: Storage, step: Step, k: Cid)
    requires !Inits(s, step, k)
    ensures var w, w' := s.work, Next(s, step).storage.work;
            k in w'.errands ==> k in w.errands && w.errands[k].client == w'.errands[k].client
  {
  }
}
