/** The part of the balances pallet that the errand pallet calls: reserving a
    fee, giving a reserve back, and paying out of a reserve. */
module Ledger {
  import opened Types

  datatype Account = Account(free: nat, reserved: nat)

  /** Accounts that exist; an account outside the map holds nothing. */
  type Balances = map<AccountId, Account>

  function Free(l: Balances, a: AccountId): nat {
    if a in l then l[a].free else 0
  }

  function Reserved(l: Balances, a: AccountId): nat {
    if a in l then l[a].reserved else 0
  }

  function Min(a: nat, b: nat): nat {
    if a <= b then a else b
  }

  /** `None` when the free balance does not cover the value. */
  function Reserve(l: Balances, who: AccountId, value: nat): Option<Balances> {
    if value == 0 then
      Some(l)
    else if Free(l, who) < value then
      None
    else
      Some(l[who := Account(l[who].free - value, l[who].reserved + value)])
  }

  /** Gives back at most what is reserved. */
  function Unreserve(l: Balances, who: AccountId, value: nat): Balances {
    if value == 0 || who !in l then
      l
    else
      var actual := Min(l[who].reserved, value);
      l[who := Account(l[who].free + actual, l[who].reserved - actual)]
  }

  /** Pays at most what is reserved to the beneficiary's free balance; `None`
      when the beneficiary has no account. */
  function RepatriateReserved(l: Balances, slashed: AccountId, beneficiary: AccountId, value: nat): Option<Balances> {
    if value == 0 then
      Some(l)
    else if slashed == beneficiary then
      Some(Unreserve(l, slashed, value))
    else if beneficiary !in l then
      None
    else if slashed !in l then
      Some(l)
    else
      var actual := Min(l[slashed].reserved, value);
      Some(l[slashed := Account(l[slashed].free, l[slashed].reserved - actual)]
            [beneficiary := Account(l[beneficiary].free + actual, l[beneficiary].reserved)])
  }

  ghost function Total(l: Balances): nat {
    if l == map[] then
      0
    else
      var a :| a in l;
      l[a].free + l[a].reserved + Total(l - {a})
  }

  /** The total does not depend on the order of summation. */
  lemma {:induction false} TotalSplit(l: Balances, a: AccountId)
    requires a in l
    ensures Total(l) == l[a].free + l[a].reserved + Total(l - {a})
    decreases |l|
  {
    var b :| b in l && Total(l) == l[b].free + l[b].reserved + Total(l - {b});
    if a != b {
      TotalSplit(l - {b}, a);
      TotalSplit(l - {a}, b);
      assert l - {a} - {b} == l - {b} - {a};
    }
  }

  lemma TotalUpdate(l: Balances, a: AccountId, v: Account)
    requires a in l
    ensures Total(l[a := v]) == Total(l) - l[a].free - l[a].reserved + v.free + v.reserved
  {
    TotalSplit(l, a);
    TotalSplit(l[a := v], a);
    assert l[a := v] - {a} == l - {a};
  }

  /** No ledger operation creates or destroys money. */
  lemma ReserveConserves(l: Balances, who: AccountId, value: nat)
    ensures var r := Reserve(l, who, value);
            r.Some? ==> Total(r.value) == Total(l)
  {
    if value != 0 && value <= Free(l, who) {
      TotalUpdate(l, who, Account(l[who].free - value, l[who].reserved + value));
    }
  }

  lemma RepatriateConserves(l: Balances, slashed: AccountId, beneficiary: AccountId, value: nat)
    ensures var r := RepatriateReserved(l, slashed, beneficiary, value);
            r.Some? ==> Total(r.value) == Total(l)
  {
    if slashed in l && beneficiary in l && value != 0 {
      var actual := Min(l[slashed].reserved, value);
      if slashed == beneficiary {
        TotalUpdate(l, slashed, Account(l[slashed].free + actual, l[slashed].reserved - actual));
      } else {
        var poorer := l[slashed := Account(l[slashed].free, l[slashed].reserved - actual)];
        TotalUpdate(l, slashed, poorer[slashed]);
        TotalUpdate(poorer, beneficiary, Account(l[beneficiary].free + actual, l[beneficiary].reserved));
      }
    }
  }
}
