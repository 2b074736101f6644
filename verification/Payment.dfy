/** Exact payment: a client that keeps to one task at a time pays the delegate it
    hired exactly the fee of that task, when the errand completes. */
module Payment {
  import opened Types
  import opened Ledger
  import opened Pallet
  import opened ErrandLife
  import opened EscrowFlow
  import opened Hiring

  /** Where a client is in its cycle of begin, initialise and complete. */
  datatype Phase =
    | Idle
    | Begun(cid: Cid, delegate: AccountId, fee: U32)
    | Running(cid: Cid, delegate: AccountId, fee: U32)

  function PhaseAfter(s: Storage, step: Step, c: AccountId, ph: Phase): Phase {
    if Begins(s, step, c) then
      Begun(step.call.cid, Get(s.registry.delegateAccounts, step.call.name, DEFAULT_ACCOUNT), step.call.fee)
    else if ph.Begun? && Inits(s, step, ph.cid) then
      Running(ph.cid, ph.delegate, ph.fee)
    else if ph.Running? && Settles(s, step, ph.cid) then
      Idle
    else
      ph
  }

  function PhaseOf(r: Run, c: AccountId): Phase {
    if r.Genesis? then Idle else PhaseAfter(Now(r.past), r.step, c, PhaseOf(r.past, c))
  }

  /** What is asked of a step, checked before it runs. A task is begun only
      while idle and only with a delegate that has an account; errands are
      initialised for the client only once, for what it began, and for
      others only with another cid; its delegate is not removed meanwhile. */
  predicate Orderly(s: Storage, step: Step, c: AccountId, ph: Phase) {
    && (Begins(s, step, c) ==>
          ph.Idle? && Get(s.registry.delegateAccounts, step.call.name, DEFAULT_ACCOUNT) in s.escrow.balances)
    && (step.Dispatch? && step.call.InitErrand? && Inits(s, step, step.call.cid) ==>
          if step.call.client == c then ph.Begun? && step.call.cid == ph.cid
          else ph.Idle? || step.call.cid != ph.cid)
    && (Removes(step, c) ==> ph.Idle?)
  }

  predicate OrderlyRun(r: Run, c: AccountId) {
    r.Then? ==> OrderlyRun(r.past, c) && Orderly(Now(r.past), r.step, c, PhaseOf(r.past, c))
  }

  /** The client's only open errand is the one of its phase. */
  ghost predicate OnlyErrand(w: Work, c: AccountId, ph: Phase) {
    forall k :: Open(w, k) && w.errands[k].client == c ==> ph.Running? && k == ph.cid
  }

  /** Reserve, fee and delegate on record are those of its phase. */
  predicate OnRecord(s: Storage, c: AccountId, ph: Phase) {
    var x := s.escrow;
    if ph.Idle? then
      Reserved(x.balances, c) == 0
    else
      && Reserved(x.balances, c) == ph.fee > 0
      && c in x.clientDelegate && x.clientDelegate[c] == ph.delegate
      && c in x.clientTaskFee && x.clientTaskFee[c] == ph.fee
      && ph.delegate in x.balances
      && (ph.Begun? ==> ph.cid !in s.work.errands)
      && (ph.Running? ==> Open(s.work, ph.cid) && s.work.errands[ph.cid].client == c)
  }

  lemma OnlyErrandStep(s: Storage, step: Step, c: AccountId, ph: Phase)
    requires !s.config.developmentMode && OnlyErrand(s.work, c, ph) && Orderly(s, step, c, ph)
    ensures OnlyErrand(Next(s, step).storage.work, c, PhaseAfter(s, step, c, ph))
  {
  }

  /** A step that neither begins a task of the client nor completes its errand
      leaves the client's record as it was. */
  lemma OthersLeaveRecord(s: Storage, step: Step, c: AccountId, ph: Phase)
    requires !s.config.developmentMode && OnlyErrand(s.work, c, ph) && OnRecord(s, c, ph) && Orderly(s, step, c, ph)
    requires !Begins(s, step, c) && !(ph.Running? && Settles(s, step, ph.cid))
    ensures OnRecord(Next(s, step).storage, c, PhaseAfter(s, step, c, ph))
  {
    HireStep(s, step, c);
    FeeStep(s, step, c);
    BalancesStep(s, step);
    if !ph.Idle? {
      ErrandStep(s, step, ph.cid);
    }
    if Pays(s, step) {
      PaymentMoves(s.escrow, Payer(s, step), c);
      assert Open(s.work, step.call.cid);
    }
  }

  lemma BeginPutsOnRecord(s: Storage, step: Step, c: AccountId, ph: Phase)
    requires OnRecord(s, c, ph) && Orderly(s, step, c, ph) && Begins(s, step, c)
    ensures OnRecord(Next(s, step).storage, c, PhaseAfter(s, step, c, ph))
  {
  }

  /** Completion moves exactly the fee from the client's reserve to the delegate. */
  lemma CompletionPays(s: Storage, step: Step, c: AccountId, ph: Phase, a: AccountId)
    requires OnRecord(s, c, ph) && ph.Running? && Settles(s, step, ph.cid)
    ensures var l, l' := s.escrow.balances, Next(s, step).storage.escrow.balances;
            && Free(l', ph.delegate) == Free(l, ph.delegate) + ph.fee
            && Reserved(l', c) == 0
            && (a != ph.delegate ==> Free(l', a) == Free(l, a))
            && (a != c ==> Reserved(l', a) == Reserved(l, a))
  {
  }

  lemma {:induction false} RecordHolds(r: Run, c: AccountId)
    requires FromGenesis(r) && !Now(r).config.developmentMode && OrderlyRun(r, c)
    ensures OnlyErrand(Now(r).work, c, PhaseOf(r, c)) && OnRecord(Now(r), c, PhaseOf(r, c))
  {
    if r.Then? {
      var s, ph := Now(r.past), PhaseOf(r.past, c);
      StepKeepsConfiguration(s, r.step);
      RecordHolds(r.past, c);
      OnlyErrandStep(s, r.step, c, ph);
      if Begins(s, r.step, c) {
        BeginPutsOnRecord(s, r.step, c, ph);
      } else if ph.Running? && Settles(s, r.step, ph.cid) {
        CompletionPays(s, r.step, c, ph, c);
      } else {
        OthersLeaveRecord(s, r.step, c, ph);
      }
    }
  }

  /** On an orderly run outside development mode, the step that completes the
      client's errand raises the free balance of the delegate it hired by
      exactly the fee, empties the client's reserve, and moves nothing else. */
  lemma ExactPayment(r: Run, c: AccountId, a: AccountId)
    requires FromGenesis(r) && !Now(r).config.developmentMode && OrderlyRun(r, c)
    requires r.Then? && PhaseOf(r.past, c).Running? && PhaseOf(r, c).Idle?
    ensures var ph, l, l' := PhaseOf(r.past, c), Now(r.past).escrow.balances, Now(r).escrow.balances;
            && Closed(Now(r).work, ph.cid)
            && Free(l', ph.delegate) == Free(l, ph.delegate) + ph.fee
            && Reserved(l, c) == ph.fee && Reserved(l', c) == 0
            && (a != ph.delegate ==> Free(l', a) == Free(l, a))
            && (a != c ==> Reserved(l', a) == Reserved(l, a))
  {
    StepKeepsConfiguration(Now(r.past), r.step);
    RecordHolds(r.past, c);
    CompletionPays(Now(r.past), r.step, c, PhaseOf(r.past, c), a);
    ErrandStep(Now(r.past), r.step, PhaseOf(r.past, c).cid);
  }

  /** Whenever an orderly client is idle it has paid all it agreed to; otherwise
      exactly the fee of its current task is outstanding. */
  lemma OrderlyClientsSettleUp(r: Run, c: AccountId)
    requires FromGenesis(r) && !Now(r).config.developmentMode && OrderlyRun(r, c)
    ensures FeesAgreed(r, c) - PaidFrom(r, c) == var ph := PhaseOf(r, c); if ph.Idle? then 0 else ph.fee
  {
    RecordHolds(r, c);
    BalancesFollowHistory(r, c);
  }

  /******* Begun tasks can be completed *******/

  /** The calls that complete a begun task: its delegate initialises the errand
      and two submissions follow. */
  function Finish(r: Run, ph: Phase, c: AccountId, id: ErrandId, a: AccountId, x: Bytes, b: AccountId, y: Bytes): Run
    requires ph.Begun?
  {
    Then(Then(Then(r, Dispatch(Signed(ph.delegate), InitErrand(c, id, ph.cid))),
              Dispatch(Signed(a), UpdateErrand(ph.cid, x))),
         Dispatch(Signed(b), UpdateErrand(ph.cid, y)))
  }

  /** Its delegate's `init_errand` is accepted and starts the errand. */
  lemma InitStartsErrand(r: Run, c: AccountId, id: ErrandId)
    requires FromGenesis(r) && !Now(r).config.developmentMode && OrderlyRun(r, c) && PhaseOf(r, c).Begun?
    ensures var ph := PhaseOf(r, c);
            var r1 := Then(r, Dispatch(Signed(ph.delegate), InitErrand(c, id, ph.cid)));
            && OrderlyRun(r1, c) && PhaseOf(r1, c) == Running(ph.cid, ph.delegate, ph.fee)
            && Votes(Now(r1).work, ph.cid) == [] && Now(r1).escrow == Now(r).escrow
            && Now(r1).config == Now(r).config
  {
    var ph := PhaseOf(r, c);
    var step := Dispatch(Signed(ph.delegate), InitErrand(c, id, ph.cid));
    RecordHolds(r, c);
    QuorumOfSubmissions(r, ph.cid);
    VoteStep(Now(r), step, ph.cid);
    assert Inits(Now(r), step, ph.cid);
  }

  /** A first submission is recorded and settles nothing. */
  lemma {:induction false} FirstSubmissionWaits(r: Run, c: AccountId, a: AccountId, x: Bytes)
    requires FromGenesis(r) && !Now(r).config.developmentMode && OrderlyRun(r, c)
    requires PhaseOf(r, c).Running? && Votes(Now(r).work, PhaseOf(r, c).cid) == []
    requires a in Now(r).config.updateResultAccounts
    ensures var r1 := Then(r, Dispatch(Signed(a), UpdateErrand(PhaseOf(r, c).cid, x)));
            && OrderlyRun(r1, c) && PhaseOf(r1, c) == PhaseOf(r, c)
            && Votes(Now(r1).work, PhaseOf(r, c).cid) == [a] && Now(r1).escrow == Now(r).escrow
            && Now(r1).config == Now(r).config
  {
    var step := Dispatch(Signed(a), UpdateErrand(PhaseOf(r, c).cid, x));
    RecordHolds(r, c);
    VoteStep(Now(r), step, PhaseOf(r, c).cid);
    assert !Settles(Now(r), step, PhaseOf(r, c).cid);
  }

  /** Every begun task of an orderly client can be completed: the delegate it
      hired and any two submissions finish the errand with the second result and
      pay exactly the fee. */
  lemma BegunTasksComplete(r: Run, c: AccountId, id: ErrandId, a: AccountId, x: Bytes, b: AccountId, y: Bytes)
    requires FromGenesis(r) && !Now(r).config.developmentMode && OrderlyRun(r, c) && PhaseOf(r, c).Begun?
    requires a in Now(r).config.updateResultAccounts && b in Now(r).config.updateResultAccounts
    ensures var ph := PhaseOf(r, c);
            var r3 := Finish(r, ph, c, id, a, x, b, y);
            && OrderlyRun(r3, c) && PhaseOf(r3, c).Idle?
            && Closed(Now(r3).work, ph.cid) && Now(r3).work.errands[ph.cid].result == y
            && Free(Now(r3).escrow.balances, ph.delegate) == Free(Now(r).escrow.balances, ph.delegate) + ph.fee
            && Reserved(Now(r3).escrow.balances, c) == 0
  {
    var ph := PhaseOf(r, c);
    var r1 := Then(r, Dispatch(Signed(ph.delegate), InitErrand(c, id, ph.cid)));
    var r2 := Then(r1, Dispatch(Signed(a), UpdateErrand(ph.cid, x)));
    var step := Dispatch(Signed(b), UpdateErrand(ph.cid, y));
    InitStartsErrand(r, c, id);
    FirstSubmissionWaits(r1, c, a, x);
    RecordHolds(r2, c);
    assert Settles(Now(r2), step, ph.cid);
    StepKeepsConfiguration(Now(r2), step);
    ErrandStep(Now(r2), step, ph.cid);
    CompletionPays(Now(r2), step, c, PhaseOf(r2, c), c);
  }

  /******* Every payment of every run *******/

  /** The fee of the client's last accepted `begin_task`. */
  function LastFee(r: Run, c: AccountId): U32 {
    if r.Genesis? then 0
    else if Begins(Now(r.past), r.step, c) then r.step.call.fee
    else LastFee(r.past, c)
  }

  lemma {:induction false} FeeIsLastFee(r: Run, c: AccountId)
    requires FromGenesis(r)
    ensures FeeOf(Now(r).escrow, c) == LastFee(r, c)
  {
    if r.Then? {
      FeeIsLastFee(r.past, c);
      FeeStep(Now(r.past), r.step, c);
    }
  }

  /** The delegate last hired and not removed since, or else the default account. */
  function HiredBy(r: Run, c: AccountId): AccountId {
    var hire := LastHire(r, c);
    if hire.Some? then hire.value else DEFAULT_ACCOUNT
  }

  /** What the client agreed to and has not paid. */
  function Outstanding(r: Run, c: AccountId): int {
    FeesAgreed(r, c) - PaidFrom(r, c)
  }

  /** On every run in either mode, a settlement raises an account's free balance
      by a given amount exactly when that account is the client's last hire, has
      an account or is the client itself, and the amount is the smaller of what
      is outstanding and the last fee. */
  lemma {:induction false} PaymentIsExactly(r: Run, step: Step, d: AccountId, amount: nat)
    requires FromGenesis(r) && Pays(Now(r), step) && amount > 0
    ensures var c, l, l' := Payer(Now(r), step), Now(r).escrow.balances, Next(Now(r), step).storage.escrow.balances;
            && (Free(l', d) == Free(l, d) + amount <==>
                  && d == HiredBy(r, c)
                  && (d == c || d in l)
                  && amount == (if Outstanding(r, c) <= LastFee(r, c) then Outstanding(r, c) else LastFee(r, c)))
  {
    var s, c := Now(r), Payer(Now(r), step);
    BalancesStep(s, step);
    PaymentMoves(s.escrow, c, d);
    BalancesFollowHistory(r, c);
    DelegateIsLastHire(r, c);
    FeeIsLastFee(r, c);
  }

  /** The client does nothing after `from`: it begins no task, is not removed,
      and nothing is paid for it. Others may do what they like. */
  predicate Undisturbed(r: Run, from: Run, c: AccountId) {
    r == from ||
    (r.Then? && Undisturbed(r.past, from, c)
     && !Begins(Now(r.past), r.step, c) && !Removes(r.step, c)
     && !(Pays(Now(r.past), r.step) && Payer(Now(r.past), r.step) == c))
  }

  lemma {:induction false} UndisturbedKeepsHistory(r: Run, from: Run, c: AccountId)
    requires Undisturbed(r, from, c)
    ensures GenesisOf(r) == GenesisOf(from)
    ensures LastHire(r, c) == LastHire(from, c) && LastFee(r, c) == LastFee(from, c) && Outstanding(r, c) == Outstanding(from, c)
    ensures Now(r).escrow.balances.Keys == Now(from).escrow.balances.Keys
  {
    if r != from {
      UndisturbedKeepsHistory(r.past, from, c);
      AccountsStay(Now(r.past), r.step);
    }
  }

  /** No call creates or removes an account. */
  lemma AccountsStay(s: Storage, step: Step)
    ensures Next(s, step).storage.escrow.balances.Keys == s.escrow.balances.Keys
  {
    BalancesStep(s, step);
    if Pays(s, step) {
      PaymentMoves(s.escrow, Payer(s, step), 0);
    }
  }

  /** A second task begun before the first is complete replaces the fee and the
      delegate on record. However much later the first errand is settled, its
      delegate is paid its fee exactly when the two tasks agree on both. */
  lemma {:induction false} SecondTaskRedirectsPayment(before: Run, begin: Step, r: Run, settle: Step, c: AccountId, ph: Phase)
    requires FromGenesis(r) && OnRecord(Now(before), c, ph) && ph.Running?
    requires Begins(Now(before), begin, c) && Undisturbed(r, Then(before, begin), c)
    requires Pays(Now(r), settle) && Payer(Now(r), settle) == c
    ensures var l, l' := Now(r).escrow.balances, Next(Now(r), settle).storage.escrow.balances;
            && (Free(l', ph.delegate) == Free(l, ph.delegate) + ph.fee
                <==> Hires(Now(before), begin, c, ph.delegate) && begin.call.fee == ph.fee)
  {
    var second := Then(before, begin);
    UndisturbedKeepsHistory(r, second, c);
    BalancesFollowHistory(before, c);
    AccountsStay(Now(before), begin);
    HireStep(Now(before), begin, c);
    assert Outstanding(second, c) == ph.fee + begin.call.fee;
    PaymentIsExactly(r, settle, ph.delegate, ph.fee);
  }

  /******* Development mode *******/

  /** In development mode an old errand of the client can be updated again, and
      then pays out the fee of a task whose errand was not even initialised. */
  lemma DevelopmentModePaysEarly(s: Storage, who: AccountId, done: Cid, result: Bytes, c: AccountId, ph: Phase)
    requires s.config.developmentMode && who in s.config.updateResultAccounts
    requires Closed(s.work, done) && s.work.errands[done].client == c
    requires OnRecord(s, c, ph) && ph.Begun?
    ensures var s' := Next(s, Dispatch(Signed(who), UpdateErrand(done, result))).storage;
            && ph.cid !in s'.work.errands
            && Free(s'.escrow.balances, ph.delegate) == Free(s.escrow.balances, ph.delegate) + ph.fee
            && Reserved(s'.escrow.balances, c) == 0
  {
  }
}
