/** The life of an errand over whole runs: the index of open errands, how often
    an errand can be settled, and the submissions that settle it. */
module ErrandLife {
  import opened Types
  import opened Pallet

  /******* What one step does to one errand *******/

  /** How often the index lists the errand. */
  ghost function Listed(w: Work, k: Cid): nat {
    multiset(w.processingErrands)[k]
  }

  predicate SameErrand(w: Work, w': Work, k: Cid) {
    (k in w.errands <==> k in w'.errands) && (k in w.errands ==> w.errands[k] == w'.errands[k])
  }

  predicate Open(w: Work, k: Cid) {
    k in w.errands && w.errands[k].status.Processing?
  }

  predicate Closed(w: Work, k: Cid) {
    k in w.errands && w.errands[k].status.Done?
  }

  /** Settling one errand leaves the others alone. */
  lemma CompleteTouchesOne(w: Work, cid: Cid, result: Bytes, k: Cid)
    requires cid in w.errands
    ensures var w' := Complete(w, cid, result);
            if k == cid then
              k in w'.errands && w'.errands[k] == w.errands[k].(status := Done, result := result) && Listed(w', k) == 0
            else
              SameErrand(w, w', k) && Listed(w', k) == Listed(w, k)
  {
    WithoutDropsOnly(w.processingErrands, cid);
  }

  /** The work a settling step completes: the submission is recorded first. */
  function Submitted(s: Storage, step: Step): Work
    requires step.Dispatch? && step.call.UpdateErrand? && step.origin.Signed?
  {
    if s.config.developmentMode then s.work else Vote(s.work, step.call.cid, step.origin.who)
  }

  lemma WorkStep(s: Storage, step: Step)
    ensures var w, w' := s.work, Next(s, step).storage.work;
            if step.Dispatch? && step.call.UpdateErrand? && Settles(s, step, step.call.cid) then
              w' == Complete(Submitted(s, step), step.call.cid, step.call.result)
            else if step.Dispatch? && step.call.InitErrand? && Inits(s, step, step.call.cid) then
              && w'.errands == w.errands[step.call.cid := Errand(step.call.client, step.call.errandId, step.call.cid, Processing, [])]
              && w'.processingErrands == w.processingErrands + [step.call.cid]
            else
              w'.errands == w.errands && w'.processingErrands == w.processingErrands
  {
  }

  lemma ErrandStep(s: Storage, step: Step, k: Cid)
    ensures var w, w' := s.work, Next(s, step).storage.work;
            && (Inits(s, step, k) ==>
                  && k in w'.errands
                  && w'.errands[k] == Errand(step.call.client, step.call.errandId, k, Processing, [])
                  && Listed(w', k) == Listed(w, k) + 1)
            && (Settles(s, step, k) ==>
                  && k in w'.errands
                  && w'.errands[k] == w.errands[k].(status := Done, result := step.call.result)
                  && Listed(w', k) == 0)
            && (!Inits(s, step, k) && !Settles(s, step, k) ==>
                  SameErrand(w, w', k) && Listed(w', k) == Listed(w, k))
  {
    WorkStep(s, step);
    if step.Dispatch? && step.call.UpdateErrand? && Settles(s, step, step.call.cid) {
      CompleteTouchesOne(Submitted(s, step), step.call.cid, step.call.result, k);
    }
  }

  /** When a step adds its sender to the submissions recorded for an errand. */
  predicate Records(s: Storage, step: Step, k: Cid) {
    && !s.config.developmentMode
    && step.Dispatch? && step.call.UpdateErrand? && step.call.cid == k
    && k in s.work.errands
    && step.origin.Signed? && step.origin.who in s.config.updateResultAccounts
  }

  lemma VoteStep(s: Storage, step: Step, k: Cid)
    ensures Votes(Next(s, step).storage.work, k)
         == Votes(s.work, k) + if Records(s, step, k) then [step.origin.who] else []
  {
  }

  /******* Counting over a run *******/

  /** Accepted `init_errand` calls for the errand. */
  function InitCount(r: Run, k: Cid): nat {
    if r.Genesis? then 0
    else InitCount(r.past, k) + if Inits(Now(r.past), r.step, k) then 1 else 0
  }

  /** Accepted `init_errand` calls since the errand was last settled. */
  function InitsSinceSettled(r: Run, k: Cid): nat {
    if r.Genesis? || Settles(Now(r.past), r.step, k) then 0
    else InitsSinceSettled(r.past, k) + if Inits(Now(r.past), r.step, k) then 1 else 0
  }

  /** How often `update_errand_result` ran for the errand. */
  function SettleCount(r: Run, k: Cid): nat {
    if r.Genesis? then 0
    else SettleCount(r.past, k) + if Settles(Now(r.past), r.step, k) then 1 else 0
  }

  predicate Accepts(s: Storage, step: Step, k: Cid) {
    step.Dispatch? && step.call.UpdateErrand? && step.call.cid == k && Next(s, step).outcome.Ok?
  }

  /** The results carried by the accepted `update_errand` calls, in order. */
  function AcceptedResults(r: Run, k: Cid): seq<Bytes> {
    if r.Genesis? then []
    else AcceptedResults(r.past, k) + if Accepts(Now(r.past), r.step, k) then [r.step.call.result] else []
  }

  /******* Index agreement *******/

  /** In both modes, the index lists an errand exactly as often as it was
      initialised since it was last settled, and an errand is processing exactly
      when it is listed; errands are stored under their own cid. */
  lemma {:induction false} IndexAgreement(r: Run, k: Cid)
    requires FromGenesis(r)
    ensures Listed(Now(r).work, k) == InitsSinceSettled(r, k)
    ensures k in Now(r).work.processingErrands <==> Open(Now(r).work, k)
    ensures k in Now(r).work.errands ==> Now(r).work.errands[k].descriptionCid == k
  {
    if r.Then? {
      IndexAgreement(r.past, k);
      ErrandStep(Now(r.past), r.step, k);
    }
  }

  /******* Settlement bound *******/

  /** Outside development mode each settlement uses up an initialisation. */
  lemma {:induction false} SettlementBound(r: Run, k: Cid)
    requires FromGenesis(r) && !Now(r).config.developmentMode
    ensures SettleCount(r, k) + (if Open(Now(r).work, k) then 1 else 0) <= InitCount(r, k)
  {
    if r.Then? {
      StepKeepsConfiguration(Now(r.past), r.step);
      SettlementBound(r.past, k);
      ErrandStep(Now(r.past), r.step, k);
    }
  }

  /** Outside development mode a finished errand keeps its record until somebody
      initialises its cid again. */
  lemma {:induction false} DoneIsFinal(before: Run, r: Run, k: Cid)
    requires Continues(r, before) && !Now(before).config.developmentMode
    requires Closed(Now(before).work, k)
    requires InitCount(r, k) == InitCount(before, k)
    ensures SameErrand(Now(before).work, Now(r).work, k)
    ensures SettleCount(r, k) == SettleCount(before, k)
  {
    if r != before {
      InitCountGrows(before, r.past, k);
      DoneIsFinal(before, r.past, k);
      ConfigurationIsFixed(r.past);
      ConfigurationIsFixed(before);
      ContinuesKeepsGenesis(r.past, before);
      ErrandStep(Now(r.past), r.step, k);
    }
  }

  lemma {:induction false} InitCountGrows(before: Run, r: Run, k: Cid)
    requires Continues(r, before)
    ensures InitCount(before, k) <= InitCount(r, k)
  {
    if r != before {
      InitCountGrows(before, r.past, k);
    }
  }

  lemma {:induction false} ContinuesKeepsGenesis(r: Run, before: Run)
    requires Continues(r, before)
    ensures GenesisOf(r) == GenesisOf(before)
  {
    if r != before {
      ContinuesKeepsGenesis(r.past, before);
    }
  }

  /** A finished record is kept exactly by the steps that neither initialise the
      cid again nor, in development mode, submit another result. */
  lemma ClosedKeptExactly(s: Storage, step: Step, k: Cid)
    requires Closed(s.work, k)
    ensures SameErrand(s.work, Next(s, step).storage.work, k) <==>
              && !Inits(s, step, k)
              && !(s.config.developmentMode && Settles(s, step, k) && step.call.result != s.work.errands[k].result)
  {
    ErrandStep(s, step, k);
  }

  /** In development mode the record is not final: any account that may update
      results replaces the result of a finished errand. */
  lemma DevelopmentModeRewritesDone(s: Storage, who: AccountId, k: Cid, result: Bytes)
    requires s.config.developmentMode && who in s.config.updateResultAccounts
    requires Closed(s.work, k)
    ensures var step := Dispatch(Signed(who), UpdateErrand(k, result));
            && Next(s, step).outcome.Ok?
            && Closed(Next(s, step).storage.work, k)
            && Next(s, step).storage.work.errands[k].result == result
  {
  }

  /******* Quorum *******/

  /** Outside development mode a finished errand has a quorum of recorded
      submissions, all from the configured accounts; an open one has a quorum
      exactly when it was settled before. */
  lemma {:induction false} QuorumOfSubmissions(r: Run, k: Cid)
    requires FromGenesis(r) && !Now(r).config.developmentMode
    ensures var votes := Votes(Now(r).work, k);
            && (forall a :: a in votes ==> a in Now(r).config.updateResultAccounts)
            && (votes != [] ==> k in Now(r).work.errands)
            && (Closed(Now(r).work, k) ==> |votes| >= MIN_UPDATE_RESULT_ACCOUNT)
            && (Open(Now(r).work, k) ==>
                  (SettleCount(r, k) > 0 <==> |votes| >= MIN_UPDATE_RESULT_ACCOUNT))
            && (k !in Now(r).work.errands ==> SettleCount(r, k) == 0)
            && (Closed(Now(r).work, k) ==> SettleCount(r, k) > 0)
  {
    if r.Then? {
      StepKeepsConfiguration(Now(r.past), r.step);
      QuorumOfSubmissions(r.past, k);
      ErrandStep(Now(r.past), r.step, k);
      VoteStep(Now(r.past), r.step, k);
    }
  }

  /** Whatever is initialised when, every accepted submission but the first one
      settles the errand, and a finished errand holds the last accepted result;
      an errand initialised again completes on one more submission. */
  lemma {:induction false} SubmissionsSettle(r: Run, k: Cid)
    requires FromGenesis(r) && !Now(r).config.developmentMode
    ensures var results, w := AcceptedResults(r, k), Now(r).work;
            && SettleCount(r, k) == (if |results| <= 1 then 0 else |results| - 1)
            && (Votes(w, k) == [] <==> results == [])
            && (k !in w.errands ==> results == [])
            && (Closed(w, k) ==> results != [] && w.errands[k].result == results[|results| - 1])
  {
    if r.Then? {
      StepKeepsConfiguration(Now(r.past), r.step);
      SubmissionsSettle(r.past, k);
      ErrandStep(Now(r.past), r.step, k);
      VoteStep(Now(r.past), r.step, k);
    }
  }

  /** An errand initialised once is processing until its second accepted
      submission, which is the last one accepted and the one whose result is
      stored. */
  lemma {:induction false} SecondSubmissionCompletes(r: Run, k: Cid)
    requires FromGenesis(r) && !Now(r).config.developmentMode
    requires InitCount(r, k) <= 1
    ensures var results, w := AcceptedResults(r, k), Now(r).work;
            && (k in w.errands <==> InitCount(r, k) == 1)
            && (k !in w.errands ==> results == [] && Votes(w, k) == [])
            && (Open(w, k) ==> |Votes(w, k)| == |results| < MIN_UPDATE_RESULT_ACCOUNT)
            && (Closed(w, k) ==> |results| == MIN_UPDATE_RESULT_ACCOUNT && w.errands[k].result == results[1])
  {
    if r.Then? {
      StepKeepsConfiguration(Now(r.past), r.step);
      SecondSubmissionCompletes(r.past, k);
      ErrandStep(Now(r.past), r.step, k);
      VoteStep(Now(r.past), r.step, k);
    }
  }

  /******* Different submitters *******/

  predicate DistinctVotes(w: Work, k: Cid) {
    forall i, j :: 0 <= i < j < |Votes(w, k)| ==> Votes(w, k)[i] != Votes(w, k)[j]
  }

  /** What a caller can check before submitting: it has not submitted before. */
  predicate NewVoter(s: Storage, step: Step, k: Cid) {
    Records(s, step, k) ==> step.origin.who !in Votes(s.work, k)
  }

  predicate NewVotersOnly(r: Run, k: Cid) {
    r.Then? ==> NewVotersOnly(r.past, k) && NewVoter(Now(r.past), r.step, k)
  }

  lemma DistinctVotesStep(s: Storage, step: Step, k: Cid)
    ensures DistinctVotes(Next(s, step).storage.work, k) <==> DistinctVotes(s.work, k) && NewVoter(s, step, k)
  {
    VoteStep(s, step, k);
    var v, v' := Votes(s.work, k), Votes(Next(s, step).storage.work, k);
    if Records(s, step, k) {
      assert v' == v + [step.origin.who];
      assert v'[|v|] == step.origin.who && forall i :: 0 <= i < |v| ==> v'[i] == v[i];
    } else {
      assert v' == v;
    }
  }

  /** Over every run, the recorded submitters of an errand are different exactly
      when nobody submitted a second time for it. */
  lemma {:induction false} DistinctIffNewVoters(r: Run, k: Cid)
    requires FromGenesis(r)
    ensures DistinctVotes(Now(r).work, k) <==> NewVotersOnly(r, k)
  {
    if r.Then? {
      DistinctIffNewVoters(r.past, k);
      DistinctVotesStep(Now(r.past), r.step, k);
    }
  }

  /** On such runs a finished errand was confirmed by two different configured
      accounts. */
  lemma TwoSubmittersConfirm(r: Run, k: Cid)
    requires FromGenesis(r) && !Now(r).config.developmentMode
    requires NewVotersOnly(r, k) && Closed(Now(r).work, k)
    ensures var votes, updaters := Votes(Now(r).work, k), Now(r).config.updateResultAccounts;
            |votes| >= 2 && votes[0] != votes[1] && votes[0] in updaters && votes[1] in updaters
  {
    QuorumOfSubmissions(r, k);
    DistinctIffNewVoters(r, k);
  }

  /** The run goes on with two submissions. */
  function TwoSubmissions(r: Run, k: Cid, a: AccountId, x: Bytes, b: AccountId, y: Bytes): Run {
    Then(Then(r, Dispatch(Signed(a), UpdateErrand(k, x))), Dispatch(Signed(b), UpdateErrand(k, y)))
  }

  /** Submissions are counted, not submitters: on any run, any two submissions of
      configured accounts complete an errand with none yet, two of the same
      account too; the submitters differ exactly if the accounts do. */
  lemma TwoSubmissionsMeetQuorum(r: Run, k: Cid, a: AccountId, x: Bytes, b: AccountId, y: Bytes)
    requires FromGenesis(r) && !Now(r).config.developmentMode && Open(Now(r).work, k) && Votes(Now(r).work, k) == []
    requires a in Now(r).config.updateResultAccounts && b in Now(r).config.updateResultAccounts
    ensures var r2 := TwoSubmissions(r, k, a, x, b, y);
            && Open(Now(r2.past).work, k)
            && Closed(Now(r2).work, k) && Now(r2).work.errands[k].result == y
            && Votes(Now(r2).work, k) == [a, b] && (NewVotersOnly(r2, k) <==> a != b)
            && Now(r2).config == Now(r).config
  {
    var r2 := TwoSubmissions(r, k, a, x, b, y);
    var s, s1 := Now(r), Now(r2.past);
    ErrandStep(s, r2.past.step, k);
    VoteStep(s, r2.past.step, k);
    StepKeepsConfiguration(s, r2.past.step);
    ErrandStep(s1, r2.step, k);
    VoteStep(s1, r2.step, k);
    StepKeepsConfiguration(s1, r2.step);
    DistinctIffNewVoters(r2, k);
  }
}
