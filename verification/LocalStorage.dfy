/** The persistent cells that off-chain workers share, the naming of their keys,
    and the operations on them. */
module LocalStorage {
  import opened Types

  datatype ErrandResultInfo = ErrandResultInfo(completed: bool, resultCid: Cid, failedCount: U32)

  datatype Item = Item(cid: Cid, info: ErrandResultInfo)

  datatype DelegateInfo = DelegateInfo(teaId: Bytes, ephemeralId: Bytes, sig: Bytes, rsaKey: string)

  /** What a cell decodes to; `Raw` stands for bytes no reader can decode. */
  datatype Cell =
    | Flag(held: bool)
    | Results(items: seq<Item>)
    | Info(info: DelegateInfo)
    | Raw(bytes: Bytes)

  /** What one lock protects: the queue of task results, or the delegate
      information of one client. */
  datatype Resource = ResultQueue | ClientRegister(client: string)

  datatype Slot = ValueOf(resource: Resource) | LockOf(resource: Resource)

  type Cells = map<Slot, Cell>

  function Lookup<K>(cells: map<K, Cell>, k: K): Option<Cell> {
    if k in cells then Some(cells[k]) else None
  }

  /******* Key naming *******/

  const TASKS_RESULTS_KEY := "local-storage::tasks_results"
  const TASKS_RESULTS_LOCK := "local-storage::tasks_results-lock"
  const CLIENT_KEY_PREFIX := "local-storage::client-"
  const CLIENT_LOCK_PREFIX := "local-storage::client-lock-"

  function KeyOf(slot: Slot): string {
    match slot
    case ValueOf(ResultQueue) => TASKS_RESULTS_KEY
    case LockOf(ResultQueue) => TASKS_RESULTS_LOCK
    case ValueOf(ClientRegister(c)) => CLIENT_KEY_PREFIX + c
    case LockOf(ClientRegister(c)) => CLIENT_LOCK_PREFIX + c
  }

  lemma PrefixCancels(p: string, a: string, b: string)
    ensures p + a == p + b <==> a == b
  {
    if p + a == p + b {
      assert (p + a)[|p|..] == a && (p + b)[|p|..] == b;
    }
  }

  /** The only keys that coincide are a client's value key and the lock key of
      the client whose string lacks the prefix "lock-". */
  lemma KeysCoincideOnly(s: Slot, t: Slot)
    requires s != t
    ensures KeyOf(s) == KeyOf(t) <==>
              || (s.ValueOf? && t.LockOf? && LockTwin(s.resource, t.resource))
              || (s.LockOf? && t.ValueOf? && LockTwin(t.resource, s.resource))
  {
    if s.resource.ClientRegister? && t.resource.ClientRegister? {
      var c, d := s.resource.client, t.resource.client;
      assert CLIENT_LOCK_PREFIX == CLIENT_KEY_PREFIX + "lock-";
      assert CLIENT_LOCK_PREFIX + c == CLIENT_KEY_PREFIX + ("lock-" + c);
      assert CLIENT_LOCK_PREFIX + d == CLIENT_KEY_PREFIX + ("lock-" + d);
      PrefixCancels(CLIENT_KEY_PREFIX, c, d);
      PrefixCancels(CLIENT_LOCK_PREFIX, c, d);
      PrefixCancels(CLIENT_KEY_PREFIX, c, "lock-" + d);
      PrefixCancels(CLIENT_KEY_PREFIX, "lock-" + c, d);
    } else {
      assert |TASKS_RESULTS_KEY| == 28 && |TASKS_RESULTS_LOCK| == 33;
      assert TASKS_RESULTS_KEY[15] == TASKS_RESULTS_LOCK[15] == 't';
      assert CLIENT_KEY_PREFIX[15] == CLIENT_LOCK_PREFIX[15] == 'c';
      if s.resource.ClientRegister? {
        assert KeyOf(s)[15] == 'c' && KeyOf(t)[15] == 't';
      } else if t.resource.ClientRegister? {
        assert KeyOf(s)[15] == 't' && KeyOf(t)[15] == 'c';
      }
    }
  }

  predicate LockTwin(r: Resource, q: Resource) {
    r.ClientRegister? && q.ClientRegister? && r.client == "lock-" + q.client
  }

  lemma TwinHasHyphen(r: Resource, q: Resource)
    ensures LockTwin(r, q) ==> '-' in r.client
  {
  }

  predicate HyphenFree(slot: Slot) {
    slot.resource.ClientRegister? ==> '-' !in slot.resource.client
  }

  /** For client strings without a hyphen the naming is injective. */
  lemma NamingIsInjective(s: Slot, t: Slot)
    requires HyphenFree(s) && HyphenFree(t)
    ensures KeyOf(s) == KeyOf(t) <==> s == t
  {
    if s != t {
      KeysCoincideOnly(s, t);
      TwinHasHyphen(s.resource, t.resource);
      TwinHasHyphen(t.resource, s.resource);
    }
  }

  /******* Which clients can share a store *******/

  /** The cell belongs to the result queue or to one of these clients. */
  predicate Named(slot: Slot, clients: iset<string>) {
    slot.resource.ClientRegister? ==> slot.resource.client in clients
  }

  /** No client's string is "lock-" followed by another's. */
  ghost predicate Apart(clients: iset<string>) {
    forall c :: c in clients ==> "lock-" + c !in clients
  }

  lemma HyphenFreeClientsAreApart()
    ensures Apart(iset c: string | '-' !in c)
  {
    forall c: string
      ensures '-' in "lock-" + c
    {
      assert ("lock-" + c)[4] == '-';
    }
  }

  /** Among clients that are apart every cell has a key of its own. */
  lemma ApartClientsHaveOwnKeys(s: Slot, t: Slot, clients: iset<string>)
    requires Apart(clients) && Named(s, clients) && Named(t, clients)
    ensures KeyOf(s) == KeyOf(t) <==> s == t
  {
    if s != t {
      KeysCoincideOnly(s, t);
    }
  }

  /** The string-keyed store holds these cells; it may hold other keys too. */
  ghost predicate Mirrors(cells: Cells, store: map<string, Cell>, clients: iset<string>) {
    forall s :: Named(s, clients) ==> Lookup(cells, s) == Lookup(store, KeyOf(s))
  }

  /** Writing under a string key is writing one cell and no other. */
  lemma KeysActAsSlots(cells: Cells, store: map<string, Cell>, clients: iset<string>, s: Slot, v: Cell)
    requires Apart(clients) && Mirrors(cells, store, clients) && Named(s, clients)
    ensures Mirrors(cells[s := v], store[KeyOf(s) := v], clients)
  {
    forall t | Named(t, clients)
      ensures Lookup(cells[s := v], t) == Lookup(store[KeyOf(s) := v], KeyOf(t))
    {
      ApartClientsHaveOwnKeys(s, t, clients);
    }
  }

  /** The cells that a store holds for these clients. */
  ghost function CellsOf(store: map<string, Cell>, clients: iset<string>): (cells: Cells)
    requires Apart(clients)
    ensures Mirrors(cells, store, clients)
    ensures forall s :: s in cells ==> Named(s, clients)
  {
    if store == map[] then
      map[]
    else
      var k :| k in store;
      var rest := CellsOf(store - {k}, clients);
      assert store == (store - {k})[k := store[k]];
      if exists s :: Named(s, clients) && KeyOf(s) == k then
        var s :| Named(s, clients) && KeyOf(s) == k;
        KeysActAsSlots(rest, store - {k}, clients, s, store[k]);
        rest[s := store[k]]
      else
        assert Mirrors(rest, store, clients) by {
          assert forall t :: Named(t, clients) ==> Lookup(store, KeyOf(t)) == Lookup(store - {k}, KeyOf(t));
        }
        rest
  }
}
