/** Values shared by the errand pallet, its storage class and its off-chain workers. */
module Types {

  type Byte = b: int | 0 <= b < 256
  type Bytes = seq<Byte>

  type Cid = Bytes
  type ErrandId = Bytes
  type DelegatorName = Bytes
  type NetAddress = Bytes

  type U32 = n: int | 0 <= n < 0x1_0000_0000
  type BlockNumber = nat

  /** Accounts are only compared, so a number stands for the 32 bytes; encoding
      an account and decoding it again is the identity. */
  type AccountId = nat

  /** What a storage map answers for a missing key whose values are accounts. */
  const DEFAULT_ACCOUNT: AccountId := 0

  datatype Option<+T> = None | Some(value: T)

  datatype ErrandStatus = Processing | Done

  datatype Errand = Errand(
    client: AccountId,
    errandId: ErrandId,
    descriptionCid: Cid,
    status: ErrandStatus,
    result: Cid)

  datatype TaskInfo = TaskInfo(
    client: AccountId,
    delegator: DelegatorName,
    descriptionCid: Cid,
    errandId: ErrandId,
    fee: U32)

  datatype Error =
    | BadOrigin
    | ClientAlreadyExists
    | NoRightToUpdateDelegate
    | ClientNotExist
    | ClientDelegatorNotExist
    | ClientNotReady
    | ErrandAlreadyExecuted
    | InsufficientFee
    | InsufficientBalance
    | ErrandTaskNotExist
    | NoRightToUpdateErrand
    | ErrandTaskCompleted

  datatype Outcome = Ok | Err(error: Error)

  /** Storage maps answer a default for a missing key. */
  function Get<K, V>(m: map<K, V>, k: K, default: V): V {
    if k in m then m[k] else default
  }

  /** `take` followed by `insert` is an update. */
  lemma TakeThenInsert<K, V>(m: map<K, V>, k: K, v: V)
    ensures (m - {k})[k := v] == m[k := v]
  {
  }

  /** `Vec::retain` with the test "is not `k`". */
  function Without(q: seq<Cid>, k: Cid): seq<Cid> {
    if q == [] then
      []
    else
      var last := q[|q| - 1];
      Without(q[..|q| - 1], k) + if last == k then [] else [last]
  }

  /** All copies of `k` go and every other element stays as often as it was. */
  lemma {:induction false} WithoutDropsOnly(q: seq<Cid>, k: Cid)
    ensures multiset(Without(q, k)) == multiset(q)[k := 0]
  {
    if q != [] {
      WithoutDropsOnly(q[..|q| - 1], k);
      assert q == q[..|q| - 1] + [q[|q| - 1]];
    }
  }

  predicate Ascending(at: seq<nat>) {
    forall i, j :: 0 <= i < j < |at| ==> at[i] < at[j]
  }

  /** `kept` is the elements of `q` other than `k`, taken from these places. */
  predicate PicksOthers(q: seq<Cid>, k: Cid, kept: seq<Cid>, at: seq<nat>) {
    && Ascending(at) && |at| == |kept|
    && (forall j :: 0 <= j < |at| ==> at[j] < |q| && q[at[j]] != k && kept[j] == q[at[j]])
    && (forall i: nat :: i < |q| && q[i] != k ==> i in at)
  }

  lemma PickOneMore(q: seq<Cid>, k: Cid, kept: seq<Cid>, at: seq<nat>, x: Cid)
    requires PicksOthers(q, k, kept, at)
    ensures if x == k then PicksOthers(q + [x], k, kept, at) else PicksOthers(q + [x], k, kept + [x], at + [|q|])
  {
    assert forall i: nat :: i in at ==> i in at + [|q|];
    assert (at + [|q|])[|at|] == |q|;
  }

  /** What stays is exactly the elements other than `k`, in their order. */
  lemma {:induction false} WithoutKeepsOrder(q: seq<Cid>, k: Cid) returns (at: seq<nat>)
    ensures PicksOthers(q, k, Without(q, k), at)
  {
    at := [];
    if q != [] {
      var rest, last := q[..|q| - 1], q[|q| - 1];
      at := WithoutKeepsOrder(rest, k);
      PickOneMore(rest, k, Without(rest, k), at, last);
      assert q == rest + [last];
      if last != k {
        at := at + [|rest|];
      }
    }
  }
}
