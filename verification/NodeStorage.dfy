/** One node's local storage as its worker uses it between two interruptions:
    each job takes its lock, works on its cell and releases the lock. Every
    method has the effect of the indivisible job of `Refinement`. */
module NodeStorage {
  import opened Types
  import opened LocalStorage
  import opened LockProtocol
  import opened Refinement

  /** Only the value and the lock of this resource may differ. */
  ghost predicate OnlyTouches(c: Cells, c': Cells, r: Resource) {
    forall s: Slot :: s.resource != r ==> Lookup(c, s) == Lookup(c', s)
  }

  class Node {
    var cells: Cells
    /** The results handed to `update_single_errand`, oldest first. */
    var submitted: seq<Item>

    ghost function Contents(): Atomic
      reads this
    {
      View(cells, submitted)
    }

    /** The compare-and-set: the lock is written only if it still reads as `seen`. */
    method SwapLock(r: Resource, seen: Option<Cell>) returns (swapped: bool)
      modifies `cells
      ensures swapped <==> Lookup(old(cells), LockOf(r)) == seen
      ensures cells == if swapped then old(cells)[LockOf(r) := Flag(true)] else old(cells)
    {
      swapped := Lookup(cells, LockOf(r)) == seen;
      if swapped {
        cells := cells[LockOf(r) := Flag(true)];
      }
    }

    /** The lock as the workers take it: read it, and swap it if it was free.
        `meanwhile` is what the others have made of the store between the two
        accesses; `cells` itself if nobody interrupts. */
    method TryLock(r: Resource, meanwhile: Cells) returns (taken: bool)
      modifies `cells
      ensures taken <==> FreeLock(Lookup(old(cells), LockOf(r))) && Lookup(meanwhile, LockOf(r)) == Lookup(old(cells), LockOf(r))
      ensures taken ==> cells == meanwhile[LockOf(r) := Flag(true)]
      ensures !taken ==> cells == if FreeLock(Lookup(old(cells), LockOf(r))) then meanwhile else old(cells)
    {
      var seen := Lookup(cells, LockOf(r));
      if !FreeLock(seen) {
        return false;
      }
      cells := meanwhile;
      taken := SwapLock(r, seen);
    }

    method Unlock(r: Resource)
      modifies `cells
      ensures cells == old(cells)[LockOf(r) := Flag(false)]
    {
      cells := cells[LockOf(r) := Flag(false)];
    }

    /** The storage half of `fetch_errand_result_info`. */
    method PushResult(item: Item) returns (ok: bool)
      modifies `cells
      ensures ok <==> FreeLock(Lookup(old(cells), LockOf(ResultQueue)))
      ensures !ok ==> cells == old(cells)
      ensures ok ==> FreeLock(Lookup(cells, LockOf(ResultQueue)))
      ensures ok ==> Contents() == Perform(old(Contents()), Append(item))
      ensures OnlyTouches(old(cells), cells, ResultQueue)
    {
      ok := TryLock(ResultQueue, cells);
      if ok {
        match Lookup(cells, ValueOf(ResultQueue)) {
          case Some(Results(results)) => cells := cells[ValueOf(ResultQueue) := Results(results + [item])];
          case _ => cells := cells[ValueOf(ResultQueue) := Results([item])];
        }
        Unlock(ResultQueue);
        QueueLeavesRegisters(old(cells), cells);
        assert Stored(cells) == Stored(old(cells)) + [item];
      }
    }

    /** `load_tasks_results_info`. */
    method LoadTasksResults() returns (ok: bool)
      modifies this
      ensures ok <==> FreeLock(Lookup(old(cells), LockOf(ResultQueue)))
      ensures !ok ==> cells == old(cells) && submitted == old(submitted)
      ensures ok ==> FreeLock(Lookup(cells, LockOf(ResultQueue)))
      ensures ok ==> Contents() == Perform(old(Contents()), Drain)
      ensures OnlyTouches(old(cells), cells, ResultQueue)
    {
      ok := TryLock(ResultQueue, cells);
      if ok {
        match Lookup(cells, ValueOf(ResultQueue)) {
          case Some(Results(results)) =>
            var locked := cells;
            for i := 0 to |results|
              invariant submitted == old(submitted) + results[..i]
              invariant cells == locked
            {
              assert results[..i + 1] == results[..i] + [results[i]];
              submitted := submitted + [results[i]];
            }
            assert results[..|results|] == results;
            cells := cells[ValueOf(ResultQueue) := Results([])];
          case _ =>
            assert Stored(old(cells)) == [];
        }
        Unlock(ResultQueue);
        QueueLeavesRegisters(old(cells), cells);
        assert submitted == old(submitted) + Stored(old(cells)) && Stored(cells) == [];
      }
    }

    method SaveDelegateInfo(client: string, info: DelegateInfo) returns (ok: bool)
      modifies `cells
      ensures ok <==> FreeLock(Lookup(old(cells), LockOf(ClientRegister(client))))
      ensures !ok ==> cells == old(cells)
      ensures ok ==> FreeLock(Lookup(cells, LockOf(ClientRegister(client))))
      ensures ok ==> Contents() == Perform(old(Contents()), Save(client, info))
      ensures OnlyTouches(old(cells), cells, ClientRegister(client))
    {
      var r := ClientRegister(client);
      ok := TryLock(r, cells);
      if ok {
        cells := cells[ValueOf(r) := Info(info)];
        Unlock(r);
        RegisterWrite(old(cells), cells, client);
      }
    }

    /** `None` when the lock is taken, nothing was saved or the cell is unreadable. */
    method LoadDelegateInfo(client: string) returns (result: Option<DelegateInfo>)
      modifies `cells
      ensures Contents() == old(Contents())
      ensures OnlyTouches(old(cells), cells, ClientRegister(client))
      ensures FreeLock(Lookup(old(cells), LockOf(ClientRegister(client)))) ==>
                && Loaded(result) == ReplyTo(old(Contents()), Load(client))
                && FreeLock(Lookup(cells, LockOf(ClientRegister(client))))
      ensures !FreeLock(Lookup(old(cells), LockOf(ClientRegister(client)))) ==>
                result == None && cells == old(cells)
    {
      var r := ClientRegister(client);
      var ok := TryLock(r, cells);
      if !ok {
        return None;
      }
      result := Registered(cells, client);
      Unlock(r);
      RegisterWrite(old(cells), cells, client);
    }
  }

  lemma QueueLeavesRegisters(c: Cells, c': Cells)
    requires OnlyTouches(c, c', ResultQueue)
    ensures Infos(c) == Infos(c')
  {
    forall d: string
      ensures Registered(c, d) == Registered(c', d)
    {
      assert Lookup(c, ValueOf(ClientRegister(d))) == Lookup(c', ValueOf(ClientRegister(d)));
    }
  }

  lemma RegisterWrite(c: Cells, c': Cells, client: string)
    requires OnlyTouches(c, c', ClientRegister(client))
    ensures Stored(c) == Stored(c')
    ensures Registered(c', client) == Registered(c, client) ==> Infos(c') == Infos(c)
    ensures forall info :: Registered(c', client) == Some(info) ==> Infos(c') == Infos(c)[client := info]
  {
    assert Lookup(c, ValueOf(ResultQueue)) == Lookup(c', ValueOf(ResultQueue));
    forall d: string | d != client
      ensures Registered(c', d) == Registered(c, d)
    {
      assert Lookup(c', ValueOf(ClientRegister(d))) == Lookup(c, ValueOf(ClientRegister(d)));
    }
  }
}
