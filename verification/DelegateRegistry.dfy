/** The delegate registry: its three maps stay aligned on disciplined runs, and
    exactly the undisciplined steps break the alignment. Which steps leave a name
    without a delegate, and when `begin_task` says so, is exact as well. */
module DelegateRegistry {
  import opened Types
  import opened Pallet
  import opened Hiring

  /** One account per name and one name per account; the accounts with a name,
      with a status and with a net address are the same. */
  predicate Aligned(g: Registry) {
    && g.delegates.Keys == g.delegateNetAddress.Keys
    && (forall n :: n in g.delegateAccounts ==> g.delegateAccounts[n] in g.delegates)
    && (forall d :: d in g.delegates ==> exists n :: n in g.delegateAccounts && g.delegateAccounts[n] == d)
    && (forall n, m :: n in g.delegateAccounts && m in g.delegateAccounts && g.delegateAccounts[n] == g.delegateAccounts[m] ==> n == m)
  }

  /** What a caller can check before the call: a requested name is free, and an
      `unreserve` names a delegate by its own name, or names nobody at all. */
  predicate Careful(s: Storage, step: Step) {
    var g := s.registry;
    step.Dispatch? ==>
      match step.call
      case RequestDelegate(name, _) =>
        step.origin.Signed? && step.origin.who !in g.delegates ==> name !in g.delegateAccounts
      case Unreserve(name, client) =>
        if name in g.delegateAccounts then g.delegateAccounts[name] == client
        else client !in g.delegates && DEFAULT_ACCOUNT !in g.delegates
      case _ => true
  }

  lemma RequestAligns(s: Storage, origin: Origin, name: DelegatorName, netAddress: NetAddress)
    requires Aligned(s.registry)
    ensures Aligned(RequestDelegateEffect(s, origin, name, netAddress).storage.registry)
       <==> Careful(s, Dispatch(origin, RequestDelegate(name, netAddress)))
  {
    var g, g' := s.registry, RequestDelegateEffect(s, origin, name, netAddress).storage.registry;
    if origin.Signed? && origin.who !in g.delegates {
      var d := origin.who;
      if name in g.delegateAccounts {
        // The former holder of the name keeps its status but has no name left.
        var former := g.delegateAccounts[name];
        assert former in g'.delegates;
        assert forall n :: n in g'.delegateAccounts ==> g'.delegateAccounts[n] != former;
      } else {
        assert g'.delegateAccounts[name] == d;
        forall e | e in g'.delegates
          ensures exists n :: n in g'.delegateAccounts && g'.delegateAccounts[n] == e
        {
          if e != d {
            var n :| n in g.delegateAccounts && g.delegateAccounts[n] == e;
            assert g'.delegateAccounts[n] == e;
          }
        }
      }
    }
  }

  lemma UnreserveNamedAligns(s: Storage, name: DelegatorName, client: AccountId)
    requires Aligned(s.registry) && name in s.registry.delegateAccounts
    ensures Aligned(UnreserveEffect(s, name, client).storage.registry) <==> s.registry.delegateAccounts[name] == client
  {
    var g, g' := s.registry, UnreserveEffect(s, name, client).storage.registry;
    if g.delegateAccounts[name] == client {
      forall e | e in g'.delegates
        ensures exists n :: n in g'.delegateAccounts && g'.delegateAccounts[n] == e
      {
        var n :| n in g.delegateAccounts && g.delegateAccounts[n] == e;
        assert n in g'.delegateAccounts;
      }
    } else {
      var d := g.delegateAccounts[name];
      assert d in g'.delegates.Keys && d !in g'.delegateNetAddress.Keys;
    }
  }

  lemma UnreserveUnnamedAligns(s: Storage, name: DelegatorName, client: AccountId)
    requires Aligned(s.registry) && name !in s.registry.delegateAccounts
    ensures Aligned(UnreserveEffect(s, name, client).storage.registry)
       <==> client !in s.registry.delegates && DEFAULT_ACCOUNT !in s.registry.delegates
  {
    var g, g' := s.registry, UnreserveEffect(s, name, client).storage.registry;
    assert g'.delegateAccounts == g.delegateAccounts;
    if client in g.delegates {
      var n :| n in g.delegateAccounts && g.delegateAccounts[n] == client;
      assert n in g'.delegateAccounts && client !in g'.delegates;
    } else if DEFAULT_ACCOUNT in g.delegates {
      assert DEFAULT_ACCOUNT in g'.delegates.Keys && DEFAULT_ACCOUNT !in g'.delegateNetAddress.Keys;
    } else {
      assert g'.delegates == g.delegates && g'.delegateNetAddress == g.delegateNetAddress;
    }
  }

  /** From an aligned registry, a step keeps it aligned exactly when careful. */
  lemma AlignedIffCareful(s: Storage, step: Step)
    requires Aligned(s.registry)
    ensures Aligned(Next(s, step).storage.registry) <==> Careful(s, step)
  {
    if step.Dispatch? {
      match step.call
      case RequestDelegate(name, netAddress) => RequestAligns(s, step.origin, name, netAddress);
      case Unreserve(name, client) =>
        if name in s.registry.delegateAccounts {
          UnreserveNamedAligns(s, name, client);
        } else {
          UnreserveUnnamedAligns(s, name, client);
        }
      case UpdateDelegateStatus(_) => StatusAligns(s, step);
      case _ => assert Next(s, step).storage.registry == s.registry;
    }
  }

  lemma StatusAligns(s: Storage, step: Step)
    requires Aligned(s.registry) && step.Dispatch? && step.call.UpdateDelegateStatus?
    ensures Aligned(Next(s, step).storage.registry)
  {
  }

  predicate CarefulRun(r: Run) {
    r.Then? ==> CarefulRun(r.past) && Careful(Now(r.past), r.step)
  }

  lemma {:induction false} RegistryStaysAligned(r: Run)
    requires FromGenesis(r) && CarefulRun(r)
    ensures Aligned(Now(r).registry)
  {
    if r.Then? {
      RegistryStaysAligned(r.past);
      AlignedIffCareful(Now(r.past), r.step);
    }
  }

  /******* When `begin_task` rejects a registered name *******/

  /** Every name maps to an account with a status. */
  predicate NamesRegistered(g: Registry) {
    forall n :: n in g.delegateAccounts ==> g.delegateAccounts[n] in g.delegates
  }

  /** Exactly then no `begin_task` fails with `ClientNotExist`. */
  lemma NoClientMissingIffRegistered(s: Storage)
    ensures NamesRegistered(s.registry) <==>
              forall origin, name, k, fee, id ::
                Next(s, Dispatch(origin, BeginTask(name, k, fee, id))).outcome != Err(ClientNotExist)
  {
    if !NamesRegistered(s.registry) {
      var n :| n in s.registry.delegateAccounts && s.registry.delegateAccounts[n] !in s.registry.delegates;
      assert Next(s, Dispatch(Signed(0), BeginTask(n, [], 0, []))).outcome == Err(ClientNotExist);
    }
  }

  /** What a caller can check before the call: no other name maps to the account
      that an `unreserve` removes. */
  predicate Spares(s: Storage, step: Step) {
    step.Dispatch? && step.call.Unreserve? ==>
      forall n :: n in s.registry.delegateAccounts && n != step.call.name ==> s.registry.delegateAccounts[n] != step.call.client
  }

  /** From such a registry, a step keeps all names registered exactly when it
      spares the other names. */
  lemma RegisteredIffSpares(s: Storage, step: Step)
    requires NamesRegistered(s.registry)
    ensures NamesRegistered(Next(s, step).storage.registry) <==> Spares(s, step)
  {
    var g, g' := s.registry, Next(s, step).storage.registry;
    if step.Dispatch? && step.call.Unreserve? {
      forall n | n in g.delegateAccounts && n != step.call.name
        ensures n in g'.delegateAccounts && (g'.delegateAccounts[n] in g'.delegates <==> g.delegateAccounts[n] != step.call.client)
      {
      }
    }
  }

  predicate SparingRun(r: Run) {
    r.Then? ==> SparingRun(r.past) && Spares(Now(r.past), r.step)
  }

  /** At no point of the run could a `begin_task` fail with `ClientNotExist`. */
  predicate AlwaysRegistered(r: Run) {
    NamesRegistered(Now(r).registry) && (r.Then? ==> AlwaysRegistered(r.past))
  }

  lemma {:induction false} AlwaysRegisteredIffSparing(r: Run)
    requires FromGenesis(r)
    ensures AlwaysRegistered(r) <==> SparingRun(r)
  {
    if r.Then? {
      AlwaysRegisteredIffSparing(r.past);
      if AlwaysRegistered(r.past) {
        RegisteredIffSpares(Now(r.past), r.step);
      }
    }
  }

  /** Careful runs are sparing, but not only they. */
  lemma {:induction false} CarefulRunsSpare(r: Run)
    requires FromGenesis(r) && CarefulRun(r)
    ensures SparingRun(r)
  {
    if r.Then? {
      CarefulRunsSpare(r.past);
      RegistryStaysAligned(r.past);
      AlignedIffCareful(Now(r.past), r.step);
      RegisteredIffSpares(Now(r.past), r.step);
    }
  }

  /** On sparing runs `begin_task` never reports that a registered name has no
      delegate behind it. */
  lemma RegisteredNamesHaveDelegates(r: Run, origin: Origin, name: DelegatorName, k: Cid, fee: U32, id: ErrandId)
    requires FromGenesis(r) && SparingRun(r)
    ensures Next(Now(r), Dispatch(origin, BeginTask(name, k, fee, id))).outcome != Err(ClientNotExist)
  {
    AlwaysRegisteredIffSparing(r);
    NoClientMissingIffRegistered(Now(r));
  }

  /** An `unreserve` that does not spare them strands every other name of the
      account it removes. */
  lemma CarelessUnreserveStrandsName(s: Storage, origin: Origin, other: DelegatorName, name: DelegatorName, sender: AccountId, k: Cid, fee: U32, id: ErrandId)
    requires name in s.registry.delegateAccounts && other != name
    ensures var s' := Next(s, Dispatch(origin, Unreserve(other, s.registry.delegateAccounts[name]))).storage;
            Next(s', Dispatch(Signed(sender), BeginTask(name, k, fee, id))).outcome == Err(ClientNotExist)
  {
  }

  /******* The same, read off the history *******/

  /** The last account that was accepted under the name, unless an `unreserve` of
      the name came after it. */
  function HolderOf(r: Run, name: DelegatorName): Option<AccountId> {
    if r.Genesis? then
      None
    else if r.step.Dispatch? && r.step.call.RequestDelegate? && r.step.call.name == name && Next(Now(r.past), r.step).outcome.Ok? then
      Some(r.step.origin.who)
    else if r.step.Dispatch? && r.step.call.Unreserve? && r.step.call.name == name then
      None
    else
      HolderOf(r.past, name)
  }

  /** The account was accepted, and no `unreserve` of the account came after it. */
  predicate Enrolled(r: Run, d: AccountId) {
    r.Then? && (Requests(Now(r.past), r.step, d) || (!Removes(r.step, d) && Enrolled(r.past, d)))
  }

  /** What a step does to one name. */
  lemma NameStep(s: Storage, step: Step, name: DelegatorName)
    ensures var m, m' := s.registry.delegateAccounts, Next(s, step).storage.registry.delegateAccounts;
            if step.Dispatch? && step.call.RequestDelegate? && step.call.name == name && Next(s, step).outcome.Ok? then
              name in m' && m'[name] == step.origin.who
            else if step.Dispatch? && step.call.Unreserve? && step.call.name == name then
              name !in m'
            else
              (name in m <==> name in m') && (name in m ==> m[name] == m'[name])
  {
  }

  /** And to one account. */
  lemma EnrolStep(s: Storage, step: Step, d: AccountId)
    ensures d in Next(s, step).storage.registry.delegates
       <==> Requests(s, step, d) || (!Removes(step, d) && d in s.registry.delegates)
  {
  }

  lemma {:induction false} RegistryFollowsHistory(r: Run, name: DelegatorName, d: AccountId)
    requires FromGenesis(r)
    ensures var g := Now(r).registry;
            && HolderOf(r, name) == (if name in g.delegateAccounts then Some(g.delegateAccounts[name]) else None)
            && (Enrolled(r, d) <==> d in g.delegates)
  {
    if r.Then? {
      RegistryFollowsHistory(r.past, name, d);
      NameStep(Now(r.past), r.step, name);
      EnrolStep(Now(r.past), r.step, d);
    }
  }

  /** On every run, a signed `begin_task` fails with `ClientNotExist` exactly when
      the holder of the name was removed since it last applied. */
  lemma ClientMissingExactly(r: Run, sender: AccountId, name: DelegatorName, k: Cid, fee: U32, id: ErrandId)
    requires FromGenesis(r)
    ensures Next(Now(r), Dispatch(Signed(sender), BeginTask(name, k, fee, id))).outcome == Err(ClientNotExist)
       <==> HolderOf(r, name).Some? && !Enrolled(r, HolderOf(r, name).value)
  {
    RegistryFollowsHistory(r, name, 0);
    if HolderOf(r, name).Some? {
      RegistryFollowsHistory(r, name, HolderOf(r, name).value);
    }
  }

  /******* Applications, addresses and statuses *******/

  /** The applications accepted while the block number was `b`, in order. */
  function ApplicationsIn(r: Run, b: BlockNumber): seq<(DelegatorName, AccountId)> {
    if r.Genesis? then
      []
    else
      var s := Now(r.past);
      ApplicationsIn(r.past, b)
      + if s.block == b && r.step.Dispatch? && r.step.origin.Signed? && Requests(s, r.step, r.step.origin.who)
        then [(r.step.call.name, r.step.origin.who)] else []
  }

  lemma ApplicationStep(s: Storage, step: Step, b: BlockNumber)
    ensures var m, m' := s.registry.delegatesApplys, Next(s, step).storage.registry.delegatesApplys;
            if s.block == b && step.Dispatch? && step.origin.Signed? && Requests(s, step, step.origin.who) then
              b in m' && m'[b] == Get(m, b, []) + [(step.call.name, step.origin.who)]
            else
              (b in m <==> b in m') && (b in m ==> m[b] == m'[b])
  {
  }

  /** The list that a worker finds for a block holds exactly its applications, in
      order; a block without any has no list. */
  lemma {:induction false} ApplicationsFollowHistory(r: Run, b: BlockNumber)
    requires FromGenesis(r)
    ensures var m := Now(r).registry.delegatesApplys;
            && (b in m <==> ApplicationsIn(r, b) != [])
            && (b in m ==> m[b] == ApplicationsIn(r, b))
  {
    if r.Then? {
      ApplicationsFollowHistory(r.past, b);
      ApplicationStep(Now(r.past), r.step, b);
    }
  }

  /** Whose address an `unreserve` of this name removes: the holder's, or else
      the default account's; not that of the account it names. */
  function Addressee(r: Run, name: DelegatorName): AccountId {
    var holder := HolderOf(r, name);
    if holder.Some? then holder.value else DEFAULT_ACCOUNT
  }

  /** The address of the account's last accepted application, unless an
      `unreserve` of a name it held came after it. */
  function AddressOf(r: Run, d: AccountId): Option<NetAddress> {
    if r.Genesis? then
      None
    else if Requests(Now(r.past), r.step, d) then
      Some(r.step.call.netAddress)
    else if r.step.Dispatch? && r.step.call.Unreserve? && Addressee(r.past, r.step.call.name) == d then
      None
    else
      AddressOf(r.past, d)
  }

  lemma AddressStep(s: Storage, step: Step, d: AccountId)
    ensures var m, m', names := s.registry.delegateNetAddress, Next(s, step).storage.registry.delegateNetAddress, s.registry.delegateAccounts;
            if Requests(s, step, d) then
              d in m' && m'[d] == step.call.netAddress
            else if step.Dispatch? && step.call.Unreserve?
                    && (if step.call.name in names then names[step.call.name] == d else d == DEFAULT_ACCOUNT) then
              d !in m'
            else
              (d in m <==> d in m') && (d in m ==> m[d] == m'[d])
  {
  }

  lemma {:induction false} AddressesFollowHistory(r: Run, d: AccountId)
    requires FromGenesis(r)
    ensures var m := Now(r).registry.delegateNetAddress;
            AddressOf(r, d) == if d in m then Some(m[d]) else None
  {
    if r.Then? {
      AddressesFollowHistory(r.past, d);
      AddressStep(Now(r.past), r.step, d);
      if r.step.Dispatch? && r.step.call.Unreserve? {
        RegistryFollowsHistory(r.past, r.step.call.name, d);
      }
    }
  }

  /** The account set its own status after its last accepted application, and
      was not removed since. */
  predicate ActiveSince(r: Run, d: AccountId) {
    && r.Then? && !Requests(Now(r.past), r.step, d) && !Removes(r.step, d)
    && (ActiveSince(r.past, d)
        || (Enrolled(r.past, d) && r.step == Dispatch(Signed(d), UpdateDelegateStatus(d))))
  }

  lemma StatusStep(s: Storage, step: Step, d: AccountId)
    ensures var m, m' := s.registry.delegates, Next(s, step).storage.registry.delegates;
            d in m' && m'[d] <==>
              && !Requests(s, step, d) && !Removes(step, d)
              && d in m && (m[d] || step == Dispatch(Signed(d), UpdateDelegateStatus(d)))
  {
  }

  lemma {:induction false} StatusesFollowHistory(r: Run, d: AccountId)
    requires FromGenesis(r)
    ensures ActiveSince(r, d) <==> d in Now(r).registry.delegates && Now(r).registry.delegates[d]
  {
    if r.Then? {
      StatusesFollowHistory(r.past, d);
      RegistryFollowsHistory(r.past, [], d);
      StatusStep(Now(r.past), r.step, d);
    }
  }
}
