/** Runs from genesis that reach the situations the other modules speak of: a
    completed errand, one account as quorum, an errand completed twice, a lost
    queue, a redirected payment, a stranded name, and what development mode permits.
    Account 1 is a client with 100 units, account 2 its delegate, accounts 3 and 4
    update results. */
module Scenarios {
  import opened Types
  import opened Ledger
  import opened Pallet
  import opened ErrandLife
  import opened TaskQueue
  import opened EscrowFlow
  import opened Hiring
  import opened DelegateRegistry
  import opened Payment

  const NAME: Bytes := [7]
  const FIRST: Cid := [8]
  const SECOND: Cid := [9]

  /******* Up to a running errand *******/

  function AtGenesis(dev: bool): Storage {
    Storage(0, Registry(map[], map[], map[], map[]), Work(map[], map[], []),
            Escrow(map[], map[], map[], map[1 := Account(100, 0), 2 := Account(0, 0)]),
            Config(dev, [3, 4]))
  }

  function AtApplied(dev: bool): Storage {
    AtGenesis(dev).(registry := Registry(map[2 := false], map[2 := []], map[NAME := 2], map[0 := [(NAME, 2)]]))
  }

  function AtActive(dev: bool): Storage {
    AtApplied(dev).(registry := AtApplied(dev).registry.(delegates := map[2 := true]))
  }

  function FirstTask(): TaskInfo {
    TaskInfo(1, NAME, FIRST, [], 5)
  }

  function AtBegun(dev: bool): Storage {
    AtActive(dev).(escrow := Escrow(map[1 := 5], map[1 := 2], map[0 := [FirstTask()]],
                                    map[1 := Account(95, 5), 2 := Account(0, 0)]))
  }

  function AtRunning(dev: bool): Storage {
    AtBegun(dev).(work := Work(map[FIRST := Errand(1, [], FIRST, Processing, [])], map[], [FIRST]))
  }

  function ActiveRun(dev: bool): Run {
    Then(Then(Genesis(AtGenesis(dev)), Dispatch(Signed(2), RequestDelegate(NAME, []))),
         Dispatch(Signed(2), UpdateDelegateStatus(2)))
  }

  function BegunRun(dev: bool): Run {
    Then(ActiveRun(dev), Dispatch(Signed(1), BeginTask(NAME, FIRST, 5, [])))
  }

  function RunningRun(dev: bool): Run {
    Then(BegunRun(dev), Dispatch(Signed(2), InitErrand(1, [], FIRST)))
  }

  lemma ReachActive(dev: bool)
    ensures FromGenesis(ActiveRun(dev)) && Now(ActiveRun(dev)) == AtActive(dev)
  {
    assert RequestDelegateEffect(AtGenesis(dev), Signed(2), NAME, []).storage == AtApplied(dev) by {
      assert [] + [(NAME, 2)] == [(NAME, 2)];
    }
    assert UpdateDelegateStatusEffect(AtApplied(dev), Signed(2), 2).storage == AtActive(dev);
  }

  lemma ReachBegun(dev: bool)
    ensures FromGenesis(BegunRun(dev)) && Now(BegunRun(dev)) == AtBegun(dev)
    ensures Begins(AtActive(dev), BegunRun(dev).step, 1)
  {
    ReachActive(dev);
    assert BeginTaskEffect(AtActive(dev), Signed(1), NAME, FIRST, 5, []) == Effect(AtBegun(dev), Ok) by {
      assert [] + [FirstTask()] == [FirstTask()];
    }
  }

  lemma ReachRunning(dev: bool)
    ensures FromGenesis(RunningRun(dev)) && Now(RunningRun(dev)) == AtRunning(dev)
  {
    ReachBegun(dev);
    assert InitErrandEffect(AtBegun(dev), Signed(2), 1, [], FIRST).storage == AtRunning(dev) by {
      assert [] + [FIRST] == [FIRST];
    }
  }

  /** The client is orderly so far, so its errand can be completed with exact
      payment. */
  lemma OrderlyClientsExist()
    ensures FromGenesis(BegunRun(false)) && !Now(BegunRun(false)).config.developmentMode
    ensures OrderlyRun(BegunRun(false), 1) && PhaseOf(BegunRun(false), 1) == Begun(FIRST, 2, 5)
  {
    ReachActive(false);
    ReachBegun(false);
  }

  /******* Quorum *******/

  function CompletedRun(b: AccountId): Run {
    TwoSubmissions(RunningRun(false), FIRST, 3, [1], b, [2])
  }

  /** A finished errand outside development mode: account 3 submits, then any
      configured account. Its submitters differ exactly if that is not 3 again. */
  lemma ErrandsComplete(b: AccountId)
    requires b == 3 || b == 4
    ensures var r := CompletedRun(b);
            && FromGenesis(r) && Now(r).config == Config(false, [3, 4]) && Closed(Now(r).work, FIRST)
            && Votes(Now(r).work, FIRST) == [3, b]
            && (NewVotersOnly(r, FIRST) <==> b != 3)
  {
    ReachRunning(false);
    TwoSubmissionsMeetQuorum(RunningRun(false), FIRST, 3, [1], b, [2]);
  }

  /** Its delegate initialises the finished errand again, and one submission of
      account 4 completes it a second time. */
  lemma DoneErrandsReopen(init: Step, update: Step)
    requires init == Dispatch(Signed(2), InitErrand(1, [], FIRST)) && update == Dispatch(Signed(4), UpdateErrand(FIRST, [5]))
    ensures var done := CompletedRun(3);
            && FromGenesis(done) && !Now(done).config.developmentMode && Closed(Now(done).work, FIRST)
            && Inits(Now(done), init, FIRST) && InitCount(Then(done, init), FIRST) >= 2
            && Settles(Now(Then(done, init)), update, FIRST)
            && Closed(Now(Then(Then(done, init), update)).work, FIRST)
  {
    ErrandsComplete(3);
    StillHired();
    ReopenedErrandNeedsOneSubmission(CompletedRun(3), 1, 2, [], FIRST, 4, [5]);
  }

  lemma StillHired()
    ensures LastHire(CompletedRun(3), 1) == Some(2)
  {
    ReachRunning(false);
    DelegateIsLastHire(RunningRun(false), 1);
    assert LastHire(CompletedRun(3).past, 1) == LastHire(RunningRun(false), 1);
  }

  /******* A lost queue *******/

  /** Asking for a cid that the block's queue already lists loses the queue: the
      fee stays reserved and no queue mentions it. */
  lemma QueuesGetLost(dev: bool) returns (r: Run)
    ensures FromGenesis(r) && !NeverLost(r, 1)
    ensures Queued(Now(r), 1) == 0 && Reserved(Now(r).escrow.balances, 1) == 5
  {
    ReachBegun(dev);
    var again := Dispatch(Signed(1), BeginTask(NAME, FIRST, 5, []));
    r := Then(BegunRun(dev), again);
    assert AtBegun(dev).escrow.tasks[0] == [FirstTask()];
    assert Queue(AtBegun(dev))[0].descriptionCid == FIRST && Queue(AtBegun(dev))[0].client == 1;
    assert LosesQueue(AtBegun(dev), again);
    assert Now(r).escrow.tasks == map[];
    assert Get(Now(r).escrow.tasks, 0, []) == [];
    assert QueuedBelow(Now(r).escrow.tasks, 1, 1) == 0;
  }

  /******* A redirected payment *******/

  /** With a second task of fee 7 under way, completing the first errand pays 7
      for it instead of 5. */
  lemma PaymentsGetRedirected() returns (r: Run, settle: Step)
    ensures FromGenesis(r) && !Now(r).config.developmentMode && Settles(Now(r), settle, FIRST)
    ensures Free(Now(r).escrow.balances, 2) == 0
    ensures Free(Next(Now(r), settle).storage.escrow.balances, 2) == 7
  {
    ReachRunning(false);
    var s := AtRunning(false);
    var begin := Dispatch(Signed(1), BeginTask(NAME, SECOND, 7, []));
    var vote := Dispatch(Signed(3), UpdateErrand(FIRST, [1]));
    settle := Dispatch(Signed(4), UpdateErrand(FIRST, [1]));
    r := Then(Then(RunningRun(false), begin), vote);
    SecondBegins(false);
    var s1 := Next(s, begin).storage;
    ErrandStep(s1, vote, FIRST);
    VoteStep(s1, vote, FIRST);
    BalancesStep(s1, vote);
    HireStep(s1, vote, 1);
    FeeStep(s1, vote, 1);
    StepKeepsConfiguration(s1, vote);
    BalancesStep(Now(r), settle);
    PaymentMoves(Now(r).escrow, 1, 2);
  }

  lemma SecondBegins(dev: bool)
    ensures var e := BeginTaskEffect(AtRunning(dev), Signed(1), NAME, SECOND, 7, []);
            && e.outcome.Ok? && e.storage.work == AtRunning(dev).work && e.storage.config == AtRunning(dev).config
            && e.storage.escrow.balances == map[1 := Account(88, 12), 2 := Account(0, 0)]
            && e.storage.escrow.clientDelegate == map[1 := 2] && e.storage.escrow.clientTaskFee == map[1 := 7]
  {
    var s := AtRunning(dev);
    assert SECOND !in s.work.errands;
    assert s.escrow.tasks[0] == [FirstTask()];
    assert !Lists(Queue(s), SECOND);
  }

  /******* A stranded name *******/

  /** An `unreserve` of the delegate under a name nobody holds leaves its own name
      in place, and `begin_task` under that name fails. */
  lemma NamesGetStranded(dev: bool) returns (r: Run)
    ensures FromGenesis(r) && !SparingRun(r) && NAME in Now(r).registry.delegateAccounts
    ensures Next(Now(r), Dispatch(Signed(1), BeginTask(NAME, FIRST, 5, []))).outcome == Err(ClientNotExist)
  {
    ReachActive(dev);
    r := Then(ActiveRun(dev), Dispatch(Unsigned, Unreserve([], 2)));
    CarelessUnreserveStrandsName(AtActive(dev), Unsigned, [], NAME, 1, FIRST, 5, []);
    if SparingRun(r) {
      RegisteredNamesHaveDelegates(r, Signed(1), NAME, FIRST, 5, []);
    }
  }

  /******* Development mode *******/

  function FinishedRun(): Run {
    Then(RunningRun(true), Dispatch(Signed(3), UpdateErrand(FIRST, [1])))
  }

  lemma ReachFinished()
    ensures var s := Now(FinishedRun());
            && FromGenesis(FinishedRun()) && s.config == Config(true, [3, 4])
            && Closed(s.work, FIRST) && s.work.errands[FIRST].client == 1 && s.work.errands[FIRST].result == [1]
            && s.work.errands.Keys == {FIRST}
            && s.registry == AtActive(true).registry && s.block == 0
            && s.escrow.tasks == map[0 := [FirstTask()]]
            && s.escrow.balances == map[1 := Account(95, 0), 2 := Account(5, 0)]
  {
    ReachRunning(true);
    var s, step := AtRunning(true), FinishedRun().step;
    ErrandStep(s, step, FIRST);
    BalancesStep(s, step);
    assert Payee(s.escrow, 1) == 2 && FeeOf(s.escrow, 1) == 5;
  }

  /** A finished errand whose result an update then replaces. */
  lemma DoneGetsRewritten() returns (r: Run, step: Step)
    ensures FromGenesis(r) && Closed(Now(r).work, FIRST) && Now(r).work.errands[FIRST].result == [1]
    ensures var w := Next(Now(r), step).storage.work; Closed(w, FIRST) && w.errands[FIRST].result == [2]
  {
    r, step := FinishedRun(), Dispatch(Signed(3), UpdateErrand(FIRST, [2]));
    ReachFinished();
    DevelopmentModeRewritesDone(Now(r), 3, FIRST, [2]);
  }

  /** The client begins a second task; updating the first errand again pays the
      delegate for it, though the second errand does not exist. */
  lemma PaymentsComeEarly() returns (r: Run, step: Step)
    ensures FromGenesis(r) && Now(r).config.developmentMode && OnRecord(Now(r), 1, Begun(SECOND, 2, 7))
    ensures SECOND !in Next(Now(r), step).storage.work.errands
    ensures Free(Now(r).escrow.balances, 2) == 5 && Free(Next(Now(r), step).storage.escrow.balances, 2) == 12
  {
    var s, begin := Now(FinishedRun()), Dispatch(Signed(1), BeginTask(NAME, SECOND, 7, []));
    r, step := Then(FinishedRun(), begin), Dispatch(Signed(3), UpdateErrand(FIRST, [2]));
    ReachFinished();
    assert s.escrow.tasks[0] == [FirstTask()] && !Lists(Queue(s), SECOND);
    assert Begins(s, begin, 1);
    HireStep(s, begin, 1);
    FeeStep(s, begin, 1);
    BalancesStep(s, begin);
    ErrandStep(s, begin, FIRST);
    ErrandStep(s, begin, SECOND);
    StepKeepsConfiguration(s, begin);
    DevelopmentModePaysEarly(Now(r), 3, FIRST, [2], 1, Begun(SECOND, 2, 7));
  }
}
